/** SoapyStreamEndpoint: buffers, handles and flow control over one stream socket. */
module StreamEndpoint {
  import opened Arithmetic
  import opened Bytes
  import opened Sequences
  import opened Sockets
  import opened FlowControl
  import opened HandleRing
  import opened BufferLayout
  import opened StreamFlags

  const STREAM_ERROR: int := -2

  /** StreamDatagramHeader. */
  datatype Header = Header(bytes: nat, sequence: nat, elems: int, flags: Flags, time: int) {
    predicate InRange() {
      bytes < U32 && sequence < U32 && Fits(4, elems) && flags.Valid() && Fits(8, time)
    }
  }

  function Encode(h: Header): (s: seq<byte>)
    requires h.flags.Valid()
    ensures |s| == HEADER_SIZE
  {
    BigEndian(4, h.bytes) + BigEndian(4, h.sequence) + SignedBytes(4, h.elems)
    + BigEndian(4, h.flags.Word()) + SignedBytes(8, h.time)
  }

  function Decode(s: seq<byte>): Header
    requires |s| >= HEADER_SIZE
  {
    PowersOf256();
    Header(FromBigEndian(s[..4]), FromBigEndian(s[4..8]), FromSignedBytes(s[8..12]),
           FlagsOf(FromBigEndian(s[12..16])), FromSignedBytes(s[16..24]))
  }

  lemma SliceOfFront(s: seq<byte>, n: nat, a: nat, b: nat)
    requires a <= b <= n <= |s|
    ensures s[..n][a..b] == s[a..b]
    ensures a == 0 ==> s[..n][..b] == s[..b]
  {
  }

  lemma FieldsOfEncode(a: seq<byte>, b: seq<byte>, c: seq<byte>, d: seq<byte>, e: seq<byte>, rest: seq<byte>)
    requires |a| == |b| == |c| == |d| == 4 && |e| == 8
    ensures var s := a + b + c + d + e + rest;
            s[..4] == a && s[4..8] == b && s[8..12] == c && s[12..16] == d && s[16..24] == e
  {
  }

  /** A header survives the wire, whatever follows it. */
  lemma HeaderRoundTrip(h: Header, rest: seq<byte>)
    requires h.InRange()
    ensures Decode(Encode(h) + rest) == h
  {
    PowersOf256();
    FieldsOfEncode(BigEndian(4, h.bytes), BigEndian(4, h.sequence), SignedBytes(4, h.elems),
                   BigEndian(4, h.flags.Word()), SignedBytes(8, h.time), rest);
    BigEndianRoundTrip(4, h.bytes);
    BigEndianRoundTrip(4, h.sequence);
    SignedBytesRoundTrip(4, h.elems);
    BigEndianRoundTrip(4, h.flags.Word());
    FlagsRoundTrip(h.flags);
    SignedBytesRoundTrip(8, h.time);
  }

  function AckHeader(e: Seqs): (h: Header)
    ensures h.flags.Valid()
  {
    Header(HEADER_SIZE, Words.Wire(e.lastRecv), e.maxInFlight, NO_FLAGS, 0)
  }

  /** An ACK means to the sender what the protocol says: the receiver's next sequence word and its window. */
  lemma AckTravels(receiver: Seqs, sender: Seqs)
    requires 0 <= receiver.maxInFlight < 0x8000_0000
    ensures var h := Decode(Encode(AckHeader(receiver)));
            sender.AckReceived(h.sequence, h.elems % U32)
              == sender.AckReceived(Words.Wire(receiver.lastRecv), receiver.maxInFlight)
  {
    PowersOf256();
    hide Encode, Decode;
    var h := AckHeader(receiver);
    HeaderRoundTrip(h, []);
    assert Encode(h) + [] == Encode(h);
  }

  /** All pieces waiting at a sending endpoint are ACKs that arrived whole. */
  predicate AcksOnly(inbox: seq<seq<byte>>) {
    forall i :: 0 <= i < |inbox| ==> |inbox[i]| == HEADER_SIZE
  }

  /** The sequence state after taking in all waiting ACKs. */
  function AfterAcks(e: Seqs, inbox: seq<seq<byte>>): Seqs
    requires AcksOnly(inbox)
    decreases |inbox|
  {
    if inbox == [] then e
    else
      var h := Decode(inbox[0]);
      AfterAcks(e.AckReceived(h.sequence, h.elems % U32), inbox[1..])
  }

  /** A datagram is waiting: a packet, or enough of the stream. */
  predicate Arrived(l: Layout, datagram: bool, inbox: seq<seq<byte>>) {
    if datagram then inbox != [] && HEADER_SIZE <= Min(|inbox[0]|, l.xferSize)
    else
      var s := Flatten(inbox);
      && NonEmptyPieces(inbox) && HEADER_SIZE <= |s|
      && HEADER_SIZE <= Decode(s).bytes <= Min(|s|, l.xferSize)
  }

  /** A packet that is shorter than its header says. */
  predicate Truncated(datagram: bool, d: seq<byte>)
    requires |d| >= HEADER_SIZE
  {
    datagram && Decode(d).bytes > |d|
  }

  /** The bytes acquireRecv gets. */
  function Incoming(l: Layout, datagram: bool, inbox: seq<seq<byte>>): (d: seq<byte>)
    requires Arrived(l, datagram, inbox)
    ensures HEADER_SIZE <= |d| <= l.xferSize
  {
    if datagram then Taken(inbox, l.xferSize) else Flatten(inbox)[..Decode(Flatten(inbox)).bytes]
  }

  method NewBuffers(n: nat, size: nat) returns (bufs: seq<array<byte>>)
    ensures |bufs| == n
    ensures forall i :: 0 <= i < n ==> fresh(bufs[i]) && bufs[i].Length == size
    ensures forall i, j :: 0 <= i < j < n ==> bufs[i] != bufs[j]
  {
    bufs := [];
    while |bufs| < n
      invariant |bufs| <= n
      invariant forall i :: 0 <= i < |bufs| ==> fresh(bufs[i]) && bufs[i].Length == size
      invariant forall i, j :: 0 <= i < j < |bufs| ==> bufs[i] != bufs[j]
    {
      var b := new byte[size];
      bufs := bufs + [b];
    }
  }

  class StreamEndpoint {
    const streamSock: Socket
    const layout: Layout
    const buffData: seq<array<byte>>
    const acquired: array<bool>

    var nextHandleAcquire: nat
    var nextHandleRelease: nat
    var numHandlesAcquired: nat

    var lastSendSequence: int
    var lastRecvSequence: int
    var maxInFlightSeqs: int
    var receiveInitial: bool
    var triggerAckWindow: int

    // datagrams logged as dropped or out of order
    var notices: nat

    ghost predicate Valid()
      reads this, acquired
    {
      && layout.Valid() && layout.xferSize < 0x8000_0000
      && |buffData| == NUM_BUFFS
      && (forall i :: 0 <= i < NUM_BUFFS ==> buffData[i].Length == layout.xferSize)
      && (forall i, j :: 0 <= i < j < NUM_BUFFS ==> buffData[i] != buffData[j])
      && acquired.Length == NUM_BUFFS
      && Handles().Valid()
    }

    ghost function Handles(): Ring
      reads this, acquired
    {
      Ring(acquired[..], nextHandleAcquire, nextHandleRelease, numHandlesAcquired)
    }

    ghost function Sequences(): Seqs
      reads this
    {
      Seqs(lastSendSequence, lastRecvSequence, maxInFlightSeqs, receiveInitial, triggerAckWindow)
    }

    /** actualWindow is what the socket reports as its buffer size, or negative if it reports an error. */
    constructor (sock: Socket, isRecv: bool, numChans: nat, elemSize: nat, mtu: nat, window: nat, actualWindow: int)
      requires PROTO_HEADER_SIZE + HEADER_SIZE <= mtu < 0x8000_0000 && numChans > 0 && elemSize > 0
      requires actualWindow < 0x8000_0000
      modifies sock`outbox
      ensures Valid() && streamSock == sock
      ensures fresh(acquired) && (forall i :: 0 <= i < NUM_BUFFS ==> fresh(buffData[i]))
      ensures layout == Layout(mtu - PROTO_HEADER_SIZE, numChans, elemSize)
      ensures Handles() == EmptyRing() && notices == 0
      ensures var w := (if actualWindow < 0 then window else actualWindow) / mtu;
              Sequences() == if isRecv then Seqs(0, 0, w, false, w / NUM_BUFFS) else Seqs(0, 0, 0, false, 0)
      ensures sock.outbox == old(sock.outbox) + if isRecv then [Encode(AckHeader(Sequences()))] else []
    {
      var xferSize := mtu - PROTO_HEADER_SIZE;
      streamSock := sock;
      layout := Layout(xferSize, numChans, elemSize);
      var bufs := NewBuffers(NUM_BUFFS, xferSize);
      buffData := bufs;
      acquired := new bool[NUM_BUFFS](_ => false);
      nextHandleAcquire, nextHandleRelease, numHandlesAcquired := 0, 0, 0;
      lastSendSequence, lastRecvSequence, maxInFlightSeqs := 0, 0, 0;
      receiveInitial, triggerAckWindow, notices := false, 0, 0;
      new;
      hide Encode, Ring.Fifo, Layout.BuffSize;
      if isRecv {
        maxInFlightSeqs := (if actualWindow < 0 then window else actualWindow) / mtu;
        triggerAckWindow := maxInFlightSeqs / NUM_BUFFS;
        SendAck();
      }
      assert acquired[..] == EmptyRing().acquired;
    }

    method SendAck()
      modifies `lastSendSequence, streamSock`outbox
      ensures Sequences() == old(Sequences()).AckSent()
      ensures streamSock.outbox == old(streamSock.outbox) + [Encode(AckHeader(old(Sequences())))]
    {
      streamSock.SendWhole(Encode(Header(HEADER_SIZE, lastRecvSequence % U32, maxInFlightSeqs, NO_FLAGS, 0)));
      lastSendSequence := lastRecvSequence;
    }

    method RecvAck()
      requires streamSock.inbox != [] && |streamSock.inbox[0]| == HEADER_SIZE
      modifies `lastRecvSequence, `maxInFlightSeqs, `receiveInitial, streamSock`inbox
      ensures var h := Decode(old(streamSock.inbox[0]));
              Sequences() == old(Sequences()).AckReceived(h.sequence, h.elems % U32)
      ensures streamSock.inbox == old(streamSock.inbox)[1..]
    {
      var header := new byte[HEADER_SIZE];
      var n := streamSock.Recv(header, 0, HEADER_SIZE);
      assert header[..] == old(streamSock.inbox[0]);
      var h := Decode(header[..]);
      receiveInitial := true;
      lastRecvSequence := h.sequence;
      maxInFlightSeqs := h.elems % U32;
    }

    /** Sends the gratuitous ACK of a receiver that has not heard anything yet. */
    method WaitRecv() returns (ready: bool)
      modifies `lastSendSequence, streamSock`outbox
      ensures ready == (streamSock.inbox != [])
      ensures Sequences() == if old(receiveInitial) then old(Sequences()) else old(Sequences()).AckSent()
      ensures streamSock.outbox == old(streamSock.outbox)
                + if old(receiveInitial) then [] else [Encode(AckHeader(old(Sequences())))]
    {
      if !receiveInitial {
        SendAck();
      }
      ready := streamSock.inbox != [];
    }

    /** An open window lets the sender through at once; otherwise it takes in every waiting ACK first. */
    method WaitSend() returns (ok: bool)
      requires AcksOnly(streamSock.inbox)
      modifies `lastRecvSequence, `maxInFlightSeqs, `receiveInitial, streamSock`inbox
      ensures ok == !Sequences().Blocked(Words) && AcksOnly(streamSock.inbox)
      ensures lastSendSequence == old(lastSendSequence)
      ensures if old(Sequences()).Blocked(Words)
              then Sequences() == AfterAcks(old(Sequences()), old(streamSock.inbox)) && streamSock.inbox == []
              else Sequences() == old(Sequences()) && streamSock.inbox == old(streamSock.inbox)
    {
      while !receiveInitial || ((lastSendSequence - lastRecvSequence) % U64) % U32 >= maxInFlightSeqs
        invariant AcksOnly(streamSock.inbox)
        invariant if old(Sequences()).Blocked(Words)
                  then AfterAcks(Sequences(), streamSock.inbox) == AfterAcks(old(Sequences()), old(streamSock.inbox))
                  else Sequences() == old(Sequences()) && streamSock.inbox == old(streamSock.inbox)
        invariant || (Sequences() == old(Sequences()) && streamSock.inbox == old(streamSock.inbox))
                  || streamSock.inbox == []
        decreases |streamSock.inbox|
      {
        if streamSock.inbox == [] {
          return false;
        }
        while streamSock.inbox != []
          invariant AcksOnly(streamSock.inbox)
          invariant AfterAcks(Sequences(), streamSock.inbox) == AfterAcks(old(Sequences()), old(streamSock.inbox))
          decreases |streamSock.inbox|
        {
          RecvAck();
        }
      }
      ok := true;
    }

    method IssueHandle()
      requires acquired.Length == NUM_BUFFS && Handles().Valid() && !Handles().Full()
      modifies acquired, `nextHandleAcquire, `numHandlesAcquired
      ensures Handles() == old(Handles()).Acquire() && Handles().Valid()
    {
      AcquireRefines(Handles());
      acquired[nextHandleAcquire] := true;
      nextHandleAcquire := (nextHandleAcquire + 1) % NUM_BUFFS;
      numHandlesAcquired := numHandlesAcquired + 1;
      assert Handles() == old(Handles()).Acquire();
    }

    /** The next handle, with the offsets of its channels, unless all are taken. */
    method AcquireSend() returns (ret: int, handle: nat, buffs: seq<nat>)
      requires Valid()
      modifies acquired, `nextHandleAcquire, `numHandlesAcquired
      ensures Valid()
      ensures if old(Handles()).Full() then ret == STREAM_ERROR && Handles() == old(Handles())
              else ret == layout.BuffSize() && handle == old(nextHandleAcquire) < NUM_BUFFS
                   && Handles() == old(Handles()).Acquire() && buffs == Addrs()
    {
      handle, buffs := 0, [];
      if numHandlesAcquired == |buffData| {
        return STREAM_ERROR, handle, buffs;
      }
      handle := nextHandleAcquire;
      IssueHandle();
      buffs := Addrs();
      ret := layout.BuffSize();
    }

    /** getAddrs: where each channel begins in a buffer. */
    function Addrs(): (r: seq<nat>)
      requires layout.Valid()
      ensures |r| == layout.numChans
      ensures forall i :: 0 <= i < |r| ==> r[i] == layout.Offset(i)
    {
      seq(layout.numChans, i requires 0 <= i < layout.numChans => layout.Offset(i))
    }

    /** The loop that ends releaseRecv and releaseSend. */
    method Reclaim(ghost h: nat, ghost r: Ring)
      requires acquired.Length == NUM_BUFFS && r.Valid() && h < NUM_BUFFS
      requires Handles() == r.(acquired := r.acquired[h := false])
      modifies `nextHandleRelease, `numHandlesAcquired
      ensures Handles() == r.Release(h) && Handles().Valid()
    {
      ReleaseRefines(r, h);
      while numHandlesAcquired != 0
        invariant acquired.Length == NUM_BUFFS && nextHandleRelease < NUM_BUFFS
        invariant Handles().Reclaim() == r.Release(h)
      {
        if acquired[nextHandleRelease] {
          break;
        }
        nextHandleRelease := (nextHandleRelease + 1) % NUM_BUFFS;
        numHandlesAcquired := numHandlesAcquired - 1;
      }
    }

    method ReleaseRecv(handle: nat)
      requires Valid() && handle < NUM_BUFFS
      modifies acquired, `nextHandleRelease, `numHandlesAcquired
      ensures Valid() && Handles() == old(Handles()).Release(handle)
    {
      ghost var r := Handles();
      acquired[handle] := false;
      Reclaim(handle, r);
    }

    /** The header that goes out with numElemsOrErr elements from a buffer. */
    ghost function SendHeader(numElemsOrErr: int, flags: Flags, time: int): Header
      requires layout.Valid()
      reads `lastSendSequence
    {
      Header(if numElemsOrErr < 0 then HEADER_SIZE else layout.Bytes(numElemsOrErr),
             Words.Wire(lastSendSequence), numElemsOrErr, flags, time)
    }

    /** Loads the header into the buffer, sends the datagram and gives the handle back. */
    method ReleaseSend(handle: nat, numElemsOrErr: int, flags: Flags, time: int) returns (ghost pieces: seq<seq<byte>>)
      requires Valid() && handle < NUM_BUFFS && numElemsOrErr <= layout.BuffSize() && flags.Valid()
      modifies acquired, `nextHandleRelease, `numHandlesAcquired, `lastSendSequence, buffData[handle], streamSock`outbox
      ensures Valid() && Handles() == old(Handles()).Release(handle)
      ensures Sequences() == old(Sequences()).DatagramSent(Words)
      ensures var h := old(SendHeader(numElemsOrErr, flags, time));
              && h.bytes <= layout.xferSize
              && buffData[handle][..] == Written(old(buffData[handle][..]), 0, Encode(h))
              && Flatten(pieces) == buffData[handle][..h.bytes] && NonEmptyPieces(pieces)
              && (streamSock.datagram ==> pieces == Packets(buffData[handle][..h.bytes]))
      ensures streamSock.outbox == old(streamSock.outbox) + pieces
    {
      hide Encode, Flatten, Packets, Ring.Reclaim, Ring.Fifo, Layout.BuffSize, Layout.Offset;
      ghost var r := Handles();
      acquired[handle] := false;
      if numElemsOrErr >= 0 {
        RegionsFit(layout, 0, numElemsOrErr);
      }
      var bytes := if numElemsOrErr < 0 then HEADER_SIZE else layout.Bytes(numElemsOrErr);
      CopyIn(buffData[handle], 0, Encode(Header(bytes, lastSendSequence % U32, numElemsOrErr, flags, time)));
      lastSendSequence := (lastSendSequence + 1) % U64;
      pieces := SendAll(streamSock, buffData[handle], bytes);
      Reclaim(handle, r);
    }

    /** Stream mode: the header first, then as many bytes as it announces. */
    method ReadStreamed(buf: array<byte>) returns (bytes: nat)
      requires layout.Valid() && buf.Length == layout.xferSize && !streamSock.datagram
      requires Arrived(layout, false, streamSock.inbox)
      modifies buf, streamSock`inbox
      ensures var d := Incoming(layout, false, old(streamSock.inbox));
              && bytes == |d| && buf[..] == Written(old(buf[..]), 0, d)
              && NonEmptyPieces(streamSock.inbox) && Flatten(old(streamSock.inbox)) == d + Flatten(streamSock.inbox)
    {
      ghost var b, s := buf[..], Flatten(streamSock.inbox);
      RecvUpTo(streamSock, buf, 0, HEADER_SIZE, HEADER_SIZE);
      assert buf[..HEADER_SIZE] == buf[0..HEADER_SIZE] == s[..HEADER_SIZE];
      DecodeFront(s, HEADER_SIZE);
      bytes := Decode(buf[..HEADER_SIZE]).bytes;
      RecvUpTo(streamSock, buf, HEADER_SIZE, bytes, BUFFMAX);
      Assoc(s[..HEADER_SIZE], buf[HEADER_SIZE..bytes], Flatten(streamSock.inbox));
      assert s[..bytes] == s[..HEADER_SIZE] + buf[HEADER_SIZE..bytes];
      WrittenTwice(b, 0, s[..HEADER_SIZE], buf[HEADER_SIZE..bytes]);
    }

    /** Reads one datagram into the next buffer. */
    method ReadDatagram(handle: nat) returns (bytesRecvd: nat, h: Header)
      requires Valid() && handle < NUM_BUFFS
      requires Arrived(layout, streamSock.datagram, streamSock.inbox)
      modifies buffData[handle], streamSock`inbox
      ensures var d := Incoming(layout, streamSock.datagram, old(streamSock.inbox));
              && bytesRecvd == |d| && h == Decode(d)
              && buffData[handle][..] == Written(old(buffData[handle][..]), 0, d)
              && if streamSock.datagram then streamSock.inbox == old(streamSock.inbox)[1..]
                 else
                   && NonEmptyPieces(streamSock.inbox)
                   && Flatten(old(streamSock.inbox)) == d + Flatten(streamSock.inbox)
    {
      var buf := buffData[handle];
      WrittenFront(buf[..], Incoming(layout, streamSock.datagram, streamSock.inbox));
      if streamSock.datagram {
        bytesRecvd := streamSock.Recv(buf, 0, buf.Length);
      } else {
        bytesRecvd := ReadStreamed(buf);
      }
      h := Decode(buf[..]);
    }

    /** The sequence bookkeeping for a datagram that arrived, with the ACK it may cause. */
    method TakeIn(h: Header)
      modifies `lastRecvSequence, `lastSendSequence, `notices, streamSock`outbox
      ensures Sequences().(receiveInitial := true) == old(Sequences()).TakenIn(Words, h.sequence)
      ensures receiveInitial == old(receiveInitial)
      ensures notices == old(notices) + if old(Sequences()).OutOfOrder(Words, h.sequence) then 1 else 0
      ensures var e := old(Sequences()).DatagramReceived(Words, h.sequence);
              streamSock.outbox == old(streamSock.outbox) + if e.AckDue(Words) then [Encode(AckHeader(e))] else []
    {
      if lastRecvSequence % U32 != h.sequence {
        notices := notices + 1;
      }
      lastRecvSequence := (h.sequence + 1) % U32;
      if ((lastRecvSequence - lastSendSequence) % U64) % U32 >= triggerAckWindow {
        SendAck();
      }
    }

    /** The part of acquireRecv after the header is checked. */
    method Accept(h: Header)
      requires Valid() && !Handles().Full() && receiveInitial
      modifies acquired, `nextHandleAcquire, `numHandlesAcquired
      modifies `lastRecvSequence, `lastSendSequence, `notices, streamSock`outbox
      ensures Valid() && Handles() == if h.elems >= 0 then old(Handles()).Acquire() else old(Handles())
      ensures Sequences() == old(Sequences()).TakenIn(Words, h.sequence)
      ensures notices == old(notices) + if old(Sequences()).OutOfOrder(Words, h.sequence) then 1 else 0
      ensures var e := old(Sequences()).DatagramReceived(Words, h.sequence);
              streamSock.outbox == old(streamSock.outbox) + if e.AckDue(Words) then [Encode(AckHeader(e))] else []
    {
      TakeIn(h);
      if h.elems >= 0 {
        IssueHandle();
      }
    }

    /** Takes in the datagram that has arrived. Negative element counts are the sender's error codes:
        they are passed on without issuing a handle. Its own errors leave buffs, flags and time as they were. */
    method AcquireRecv(buffs0: seq<nat>, flags0: Flags, time0: int)
      returns (ret: int, handle: nat, buffs: seq<nat>, flags: Flags, time: int)
      requires Valid() && Arrived(layout, streamSock.datagram, streamSock.inbox)
      modifies this, acquired, buffData[nextHandleAcquire % NUM_BUFFS], streamSock
      ensures Valid()
      ensures old(Handles()).Full() ==>
                && ret == STREAM_ERROR && buffs == buffs0 && flags == flags0 && time == time0
                && Handles() == old(Handles()) && Sequences() == old(Sequences())
                && streamSock.inbox == old(streamSock.inbox) && streamSock.outbox == old(streamSock.outbox)
      ensures !old(Handles()).Full() ==>
                var d := Incoming(layout, streamSock.datagram, old(streamSock.inbox));
                && handle == old(nextHandleAcquire) < NUM_BUFFS
                && buffData[handle][..] == Written(old(buffData[nextHandleAcquire % NUM_BUFFS][..]), 0, d)
                && (if streamSock.datagram then streamSock.inbox == old(streamSock.inbox)[1..]
                    else
                      && NonEmptyPieces(streamSock.inbox)
                      && Flatten(old(streamSock.inbox)) == d + Flatten(streamSock.inbox))
      ensures !old(Handles()).Full() ==>
                var d := Incoming(layout, streamSock.datagram, old(streamSock.inbox));
                var h := Decode(d);
                if Truncated(streamSock.datagram, d) then
                  && ret == STREAM_ERROR && buffs == buffs0 && flags == flags0 && time == time0
                  && Handles() == old(Handles())
                  && Sequences() == old(Sequences()).PacketRefused()
                  && streamSock.outbox == old(streamSock.outbox)
                else
                  && ret == h.elems && flags == h.flags && time == h.time && buffs == Addrs()
                  && Handles() == (if ret >= 0 then old(Handles()).Acquire() else old(Handles()))
                  && Sequences() == old(Sequences()).TakenIn(Words, h.sequence)
                  && notices == old(notices) + (if old(Sequences()).OutOfOrder(Words, h.sequence) then 1 else 0)
                  && var e := old(Sequences()).DatagramReceived(Words, h.sequence);
                     streamSock.outbox == old(streamSock.outbox)
                       + if e.AckDue(Words) then [Encode(AckHeader(e))] else []
    {
      hide Decode, Encode, Flatten, Layout.BuffSize, Layout.Offset, Ring.Reclaim;
      handle, buffs, flags, time := 0, buffs0, flags0, time0;
      if numHandlesAcquired == |buffData| {
        return STREAM_ERROR, handle, buffs, flags, time;
      }
      handle := nextHandleAcquire;
      var bytesRecvd, h := ReadDatagram(handle);
      receiveInitial := true;
      if streamSock.datagram && h.bytes > bytesRecvd {
        return STREAM_ERROR, handle, buffs, flags, time;
      }
      Accept(h);
      return h.elems, handle, Addrs(), h.flags, h.time;
    }
  }

  lemma WrittenFront(b: seq<byte>, d: seq<byte>)
    requires HEADER_SIZE <= |d| <= |b|
    ensures Decode(Written(b, 0, d)) == Decode(d)
  {
    assert Written(b, 0, d)[..|d|] == d;
    DecodeFront(Written(b, 0, d), |d|);
  }

  lemma DecodeFront(s: seq<byte>, n: nat)
    requires HEADER_SIZE <= n <= |s|
    ensures Decode(s[..n]) == Decode(s)
  {
    SliceOfFront(s, n, 0, 4);
    SliceOfFront(s, n, 4, 8);
    SliceOfFront(s, n, 8, 12);
    SliceOfFront(s, n, 12, 16);
    SliceOfFront(s, n, 16, 24);
  }
}
