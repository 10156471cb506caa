/** Datagrams as both directions make them and take them apart: a header and the samples of every channel. */
module Datagrams {
  import opened Arithmetic
  import opened Bytes
  import opened Sequences
  import opened Sockets
  import opened FlowControl
  import opened BufferLayout
  import opened DeviceStream
  import opened StreamFlags
  import opened StreamEndpoint

  /** What both ends of a stream agree on: the layout and the kind of transport. */
  datatype Link = Link(l: Layout, datagram: bool) {
    ghost predicate Valid() {
      l.Valid() && l.xferSize < 0x8000_0000
    }

    /** A full datagram is not cut up: in datagram mode it fits one packet. */
    predicate WholePackets()
      requires l.Valid()
    {
      datagram ==> l.Bytes(l.BuffSize()) <= BUFFMAX
    }
  }

  /** The pieces in which a sender hands the datagram d to the transport. */
  ghost predicate SentAs(c: Link, d: seq<byte>, pieces: seq<seq<byte>>) {
    Flatten(pieces) == d && NonEmptyPieces(pieces) && (c.datagram ==> pieces == Packets(d))
  }

  /** A stream cut up differently. */
  predicate Rechunked(c: Link, inbox: seq<seq<byte>>, inbox': seq<seq<byte>>) {
    !c.datagram && NonEmptyPieces(inbox') && Flatten(inbox') == Flatten(inbox)
  }

  /** The channels of a datagram of n elements. */
  function Channels(l: Layout, d: seq<byte>, n: nat): (r: seq<seq<byte>>)
    requires l.Valid() && n <= l.BuffSize() && l.Bytes(n) <= |d|
    ensures |r| == l.numChans
    ensures forall i :: 0 <= i < |r| ==> |r[i]| == n * l.elemSize
  {
    ChannelsFit(l, n);
    Slices(d, Offsets(l), n * l.elemSize)
  }

  function Offsets(l: Layout): (r: seq<nat>)
    requires l.Valid()
    ensures |r| == l.numChans && forall i :: 0 <= i < |r| ==> r[i] == l.Offset(i)
  {
    seq(l.numChans, i requires 0 <= i < l.numChans => l.Offset(i))
  }

  lemma ChannelsFit(l: Layout, n: nat)
    requires l.Valid() && n <= l.BuffSize()
    ensures forall i :: 0 <= i < l.numChans ==> Offsets(l)[i] + n * l.elemSize <= l.Bytes(n)
    ensures l.Bytes(n) <= l.xferSize
  {
    forall i | 0 <= i < l.numChans ensures Offsets(l)[i] + n * l.elemSize <= l.Bytes(n) {
      RegionsFit(l, i, n);
    }
    RegionsFit(l, 0, n);
  }

  /** Equally long pieces of a buffer. */
  function Slices(buf: seq<byte>, offs: seq<nat>, n: nat): (r: seq<seq<byte>>)
    requires forall i :: 0 <= i < |offs| ==> offs[i] + n <= |buf|
    ensures |r| == |offs| && forall i :: 0 <= i < |r| ==> r[i] == buf[offs[i]..offs[i] + n]
  {
    seq(|offs|, i requires 0 <= i < |offs| => buf[offs[i]..offs[i] + n])
  }

  function Moved(offs: seq<nat>, n: nat): (r: seq<nat>)
    ensures |r| == |offs| && forall i :: 0 <= i < |r| ==> r[i] == offs[i] + n
  {
    seq(|offs|, i requires 0 <= i < |offs| => offs[i] + n)
  }

  lemma SlicesSplit(buf: seq<byte>, offs: seq<nat>, total: nat, n: nat)
    requires n <= total && forall i :: 0 <= i < |offs| ==> offs[i] + total <= |buf|
    ensures Front(Slices(buf, offs, total), n) == Slices(buf, offs, n)
    ensures Back(Slices(buf, offs, total), n) == Slices(buf, Moved(offs, n), total - n)
  {
    var s := Slices(buf, offs, total);
    forall i | 0 <= i < |offs|
      ensures s[i][..n] == buf[offs[i]..offs[i] + n] && s[i][n..] == buf[offs[i] + n..offs[i] + total]
    {
    }
  }

  lemma SlicesOfFront(buf: seq<byte>, d: seq<byte>, offs: seq<nat>, n: nat)
    requires |d| <= |buf| && d == buf[..|d|] && forall i :: 0 <= i < |offs| ==> offs[i] + n <= |d|
    ensures Slices(buf, offs, n) == Slices(d, offs, n)
  {
    forall i | 0 <= i < |offs| ensures buf[offs[i]..offs[i] + n] == d[offs[i]..offs[i] + n] {
    }
  }

  /** A datagram as releaseSend makes it: an error code, or as many elements as it has room for. */
  predicate WellFormed(l: Layout, d: seq<byte>)
    requires l.Valid()
  {
    && HEADER_SIZE <= |d| && Decode(d).bytes == |d|
    && var n := Decode(d).elems;
       if n < 0 then |d| == HEADER_SIZE else n <= l.BuffSize() && |d| == l.Bytes(n)
  }

  /** What acquireRecv returns for the bytes d. */
  function RetOf(datagram: bool, d: seq<byte>): int
    requires |d| >= HEADER_SIZE
  {
    if Truncated(datagram, d) then STREAM_ERROR else Decode(d).elems
  }

  /** Nothing has arrived, or a whole datagram or the first packet of one has. */
  predicate Deliverable(ep: StreamEndpoint)
    requires ep.layout.Valid()
    reads ep.streamSock
  {
    var sock := ep.streamSock;
    sock.inbox == [] || (Arrived(ep.layout, sock.datagram, sock.inbox)
                         && var d := Incoming(ep.layout, sock.datagram, sock.inbox);
                            WellFormed(ep.layout, d) || Truncated(sock.datagram, d))
  }

  /** inbox without the datagram d at its front. */
  predicate Consumed(datagram: bool, inbox: seq<seq<byte>>, d: seq<byte>, rest: seq<seq<byte>>) {
    if datagram then inbox != [] && rest == inbox[1..]
    else NonEmptyPieces(rest) && Flatten(inbox) == d + Flatten(rest)
  }

  /** The first n bytes of every channel, and the rest. */
  function Front(s: seq<seq<byte>>, n: nat): (r: seq<seq<byte>>)
    requires forall i :: 0 <= i < |s| ==> n <= |s[i]|
    ensures |r| == |s|
  {
    seq(|s|, i requires 0 <= i < |s| => s[i][..n])
  }

  function Back(s: seq<seq<byte>>, n: nat): (r: seq<seq<byte>>)
    requires forall i :: 0 <= i < |s| ==> n <= |s[i]|
    ensures |r| == |s|
  {
    seq(|s|, i requires 0 <= i < |s| => s[i][n..])
  }

  lemma FragmentBytes(es: nat, total: nat, n: nat)
    requires n <= total
    ensures n * es <= total * es && total * es - n * es == (total - n) * es
    ensures es * n == n * es
  {
    MulMonotone(n, total, es);
    Distribute(es, total, n);
  }

  lemma HeaderOfSent(buf: seq<byte>, h: Header)
    requires h.InRange() && HEADER_SIZE <= h.bytes <= |buf|
    ensures Decode(Written(buf, 0, Encode(h))[..h.bytes]) == h
  {
    var d := Written(buf, 0, Encode(h))[..h.bytes];
    assert d == Encode(h) + d[HEADER_SIZE..];
    HeaderRoundTrip(h, d[HEADER_SIZE..]);
  }

  lemma ChannelOfSent(l: Layout, buf: seq<byte>, header: seq<byte>, n: nat, i: nat)
    requires l.Valid() && |buf| == l.xferSize && |header| == HEADER_SIZE && n <= l.BuffSize() && i < l.numChans
    ensures l.Offset(i) + n * l.elemSize <= l.Bytes(n) <= |buf|
    ensures l.Channel(Written(buf, 0, header)[..l.Bytes(n)], i, n) == l.Channel(buf, i, n)
  {
    RegionsFit(l, i, n);
  }

  lemma BytesAfterHeader(l: Layout, n: nat)
    requires l.Valid()
    ensures HEADER_SIZE <= l.Bytes(n)
  {
    hide Layout.BuffSize;
    MulMonotone(0, (l.numChans - 1) * l.BuffSize() + n, l.elemSize);
  }

  lemma SentInRange(l: Layout, ret: int)
    requires l.Valid() && l.xferSize < 0x8000_0000 && ret <= l.BuffSize()
    ensures HEADER_SIZE <= (if ret < 0 then HEADER_SIZE else l.Bytes(ret)) <= l.xferSize
    ensures ret >= 0 ==> Fits(4, ret)
  {
    PowersOf256();
    BuffSizeSmall(l);
    if ret >= 0 {
      RegionsFit(l, 0, ret);
    }
  }

  /** Each channel's place in the buffer begins with its piece of n elements. */
  ghost predicate HoldsChannels(l: Layout, buf: seq<byte>, n: nat, data: seq<seq<byte>>)
    requires l.Valid()
  {
    |data| == l.numChans && forall i :: 0 <= i < l.numChans ==>
      l.Offset(i) + n * l.elemSize <= |buf| && l.Channel(buf, i, n) == data[i]
  }

  lemma SentChannels(l: Layout, buf: seq<byte>, header: seq<byte>, n: nat, data: seq<seq<byte>>)
    requires l.Valid() && |buf| == l.xferSize && |header| == HEADER_SIZE && n <= l.BuffSize()
    requires HoldsChannels(l, buf, n, data)
    ensures HEADER_SIZE <= l.Bytes(n) <= |buf|
    ensures HoldsChannels(l, Written(buf, 0, header)[..l.Bytes(n)], n, data)
  {
    RegionsFit(l, 0, n);
    forall i | 0 <= i < l.numChans
      ensures l.Offset(i) + n * l.elemSize <= l.Bytes(n)
      ensures l.Channel(Written(buf, 0, header)[..l.Bytes(n)], i, n) == data[i]
    {
      ChannelOfSent(l, buf, header, n, i);
    }
  }

  lemma OffsetsSeparate(l: Layout, buffs: seq<nat>)
    requires l.Valid() && |buffs| == l.numChans
    requires forall i :: 0 <= i < |buffs| ==> buffs[i] == l.Offset(i)
    ensures Separate(buffs, l.BuffSize() * l.elemSize, l.xferSize)
  {
    forall i | 0 <= i < |buffs| ensures buffs[i] + l.BuffSize() * l.elemSize <= l.xferSize {
      RegionsFit(l, i, l.BuffSize());
    }
    forall i, j | 0 <= i < j < |buffs| ensures buffs[i] + l.BuffSize() * l.elemSize <= buffs[j] {
      RegionsDisjoint(l, i, j);
    }
  }

  lemma AppendedTwice(s: seq<seq<byte>>, d: seq<seq<byte>>, e: seq<seq<byte>>)
    requires |s| == |d| == |e|
    ensures Appended(Appended(s, d), e) == Appended(s, Appended(d, e))
  {
    forall i | 0 <= i < |s| ensures (s[i] + d[i]) + e[i] == s[i] + (d[i] + e[i]) {
      Assoc(s[i], d[i], e[i]);
    }
  }

  /** The samples a datagram carries. */
  function Payload(l: Layout, d: seq<byte>): (r: seq<seq<byte>>)
    requires l.Valid() && WellFormed(l, d)
    ensures |r| == l.numChans
  {
    if Decode(d).elems < 0 then NoData(l.numChans) else Channels(l, d, Decode(d).elems)
  }

  ghost predicate AllWellFormed(l: Layout, queue: seq<seq<byte>>)
    requires l.Valid()
  {
    forall k :: 0 <= k < |queue| ==> WellFormed(l, queue[k])
  }

  /** The samples under way. */
  function InTransit(l: Layout, queue: seq<seq<byte>>): (r: seq<seq<byte>>)
    requires l.Valid() && AllWellFormed(l, queue)
    ensures |r| == l.numChans
    decreases |queue|
  {
    if queue == [] then NoData(l.numChans) else Appended(Payload(l, queue[0]), InTransit(l, queue[1..]))
  }

  lemma {:induction false} InTransitAppend(l: Layout, queue: seq<seq<byte>>, d: seq<byte>)
    requires l.Valid() && AllWellFormed(l, queue) && WellFormed(l, d)
    ensures AllWellFormed(l, queue + [d])
    ensures InTransit(l, queue + [d]) == Appended(InTransit(l, queue), Payload(l, d))
    decreases |queue|
  {
    if queue == [] {
      assert [d][1..] == [] && [] + [d] == [d];
      AppendNothing(Payload(l, d));
      PrependNothing(Payload(l, d));
    } else {
      InTransitAppend(l, queue[1..], d);
      assert (queue + [d])[1..] == queue[1..] + [d];
      AppendedTwice(Payload(l, queue[0]), InTransit(l, queue[1..]), Payload(l, d));
    }
  }

  lemma PrependNothing(s: seq<seq<byte>>)
    ensures Appended(NoData(|s|), s) == s
  {
    assert forall i :: 0 <= i < |s| ==> NoData(|s|)[i] + s[i] == s[i];
  }

  lemma HeldChannels(l: Layout, d: seq<byte>, n: nat, data: seq<seq<byte>>)
    requires l.Valid() && n <= l.BuffSize() && l.Bytes(n) <= |d| && HoldsChannels(l, d, n, data)
    ensures Channels(l, d, n) == data
  {
    forall i | 0 <= i < l.numChans ensures Channels(l, d, n)[i] == data[i] {
      assert l.Channel(d, i, n) == data[i];
    }
  }

  /** The transport holds exactly the queued datagrams. */
  ghost predicate Transported(c: Link, inbox: seq<seq<byte>>, queue: seq<seq<byte>>) {
    if c.datagram then inbox == queue else NonEmptyPieces(inbox) && Flatten(inbox) == Flatten(queue)
  }

  /** What acquireRecv may be given: a datagram as releaseSend makes it, or a packet that is not whole. */
  predicate Usable(c: Link, u: seq<byte>)
    requires c.l.Valid()
  {
    HEADER_SIZE <= |u| <= c.l.xferSize && (WellFormed(c.l, u) || Truncated(c.datagram, u))
  }

  /** All of the queue is like that, up to what ends the receiver's work. */
  predicate Takeable(c: Link, queue: seq<seq<byte>>)
    requires c.l.Valid()
    decreases |queue|
  {
    queue != [] ==> Usable(c, queue[0]) && (RetOf(c.datagram, queue[0]) < 0 || Takeable(c, queue[1..]))
  }

  lemma {:induction false} TakeableFront(c: Link, queue: seq<seq<byte>>, more: seq<seq<byte>>)
    requires c.l.Valid() && Takeable(c, queue + more)
    ensures Takeable(c, queue)
    decreases |queue|
  {
    hide WellFormed, Truncated, Decode;
    if queue != [] {
      assert (queue + more)[0] == queue[0] && (queue + more)[1..] == queue[1..] + more;
      if RetOf(c.datagram, queue[0]) >= 0 {
        TakeableFront(c, queue[1..], more);
      }
    }
  }

  /** The packets of a datagram that is cut up can be taken in: the first one ends the work. */
  lemma CutTakeable(c: Link, d: seq<byte>, more: seq<seq<byte>>)
    requires c.Valid() && c.datagram && WellFormed(c.l, d) && |d| > BUFFMAX
    ensures Takeable(c, Packets(d) + more)
  {
    hide Decode, WellFormed;
    WellFormedSize(c.l, d);
    LongDatagramRefused(c, d, more);
    assert (Packets(d) + more)[0] == Packets(d)[0] == d[..BUFFMAX];
  }

  /** The front of the queue is what acquireRecv gets. */
  lemma UnitArrives(c: Link, inbox: seq<seq<byte>>, queue: seq<seq<byte>>)
    requires c.Valid() && Transported(c, inbox, queue) && (queue != [] ==> Usable(c, queue[0]))
    ensures inbox == [] <==> queue == []
    ensures queue != [] ==> Arrived(c.l, c.datagram, inbox) && Incoming(c.l, c.datagram, inbox) == queue[0]
  {
    if queue != [] {
      var d := queue[0];
      if !c.datagram {
        var s := Flatten(queue);
        assert s == d + Flatten(queue[1..]);
        assert s[..|d|] == d;
        DecodeFront(s, |d|);
        FlattenNonEmpty(inbox);
      }
    } else if !c.datagram {
      FlattenOfPieces(inbox);
    }
  }

  lemma SomethingWaits(c: Link, inbox: seq<seq<byte>>, queue: seq<seq<byte>>)
    requires c.Valid() && Takeable(c, queue) && Transported(c, inbox, queue)
    ensures inbox == [] <==> queue == []
  {
    UnitArrives(c, inbox, queue);
  }

  lemma FrontArrives(c: Link, inbox: seq<seq<byte>>, queue: seq<seq<byte>>)
    requires c.Valid() && AllWellFormed(c.l, queue) && Transported(c, inbox, queue)
    ensures inbox == [] <==> queue == []
    ensures queue != [] ==> Arrived(c.l, c.datagram, inbox) && Incoming(c.l, c.datagram, inbox) == queue[0]
  {
    hide WellFormed;
    if queue != [] {
      WellFormedSize(c.l, queue[0]);
    }
    UnitArrives(c, inbox, queue);
  }

  lemma WellFormedSize(l: Layout, d: seq<byte>)
    requires l.Valid() && WellFormed(l, d)
    ensures HEADER_SIZE <= |d| <= l.xferSize
  {
    if Decode(d).elems >= 0 {
      ChannelsFit(l, Decode(d).elems);
    }
  }

  lemma AfterFront(c: Link, inbox: seq<seq<byte>>, queue: seq<seq<byte>>, rest: seq<seq<byte>>)
    requires Transported(c, inbox, queue) && queue != []
    requires Consumed(c.datagram, inbox, queue[0], rest)
    ensures Transported(c, rest, queue[1..])
  {
    if !c.datagram {
      assert Flatten(queue) == queue[0] + Flatten(queue[1..]);
      assert Flatten(rest) == Flatten(inbox)[|queue[0]|..] == Flatten(queue[1..]);
    }
  }

  /** A buffer into which a datagram was received holds its channels. */
  lemma ReceivedChannels(l: Layout, b: seq<byte>, d: seq<byte>, n: nat, offs: seq<nat>)
    requires l.Valid() && n <= l.BuffSize() && |d| == l.Bytes(n) && |b| == l.xferSize
    requires |offs| == l.numChans && forall i :: 0 <= i < |offs| ==> offs[i] == l.Offset(i)
    ensures |d| <= |b|
    ensures forall i :: 0 <= i < |offs| ==> offs[i] + n * l.elemSize <= l.xferSize
    ensures Slices(Written(b, 0, d), offs, n * l.elemSize) == Channels(l, d, n)
  {
    ChannelsFit(l, n);
    assert offs == Offsets(l);
    SlicesOfFront(Written(b, 0, d), d, offs, n * l.elemSize);
  }

  /** d is the datagram of n elements, with data[i] in channel i. */
  ghost predicate IsDatagram(l: Layout, d: seq<byte>, n: nat, flags: Flags, time: int, seqno: int, data: seq<seq<byte>>)
    requires l.Valid()
  {
    && n <= l.BuffSize() && HEADER_SIZE <= |d| == l.Bytes(n) && 0 <= seqno < U32
    && Decode(d) == Header(|d|, seqno, n, flags, time) && HoldsChannels(l, d, n, data)
  }

  lemma DatagramPayload(l: Layout, d: seq<byte>, n: nat, flags: Flags, time: int, seqno: int, data: seq<seq<byte>>)
    requires l.Valid() && IsDatagram(l, d, n, flags, time, seqno, data)
    ensures WellFormed(l, d) && Payload(l, d) == data
  {
    HeldChannels(l, d, n, data);
  }

  /** What goes out of a filled buffer is a datagram. */
  lemma SentIsDatagram(l: Layout, buf: seq<byte>, n: nat, h: Header, after: seq<byte>, data: seq<seq<byte>>)
    requires l.Valid() && |buf| == l.xferSize < 0x8000_0000 && n <= l.BuffSize()
    requires h.bytes == l.Bytes(n) && h.elems == n && 0 <= h.sequence < U32 && h.flags.Valid() && Fits(8, h.time)
    requires HoldsChannels(l, buf, n, data) && after == Written(buf, 0, Encode(h))
    ensures h.bytes <= |after| && IsDatagram(l, after[..h.bytes], n, h.flags, h.time, h.sequence, data)
  {
    SentInRange(l, n);
    HeaderOfSent(buf, h);
    SentChannels(l, buf, Encode(h), n, data);
  }

  lemma HoldsWidth(l: Layout, b: seq<byte>, n: nat, w: nat, data: seq<seq<byte>>, offs: seq<nat>)
    requires l.Valid() && w == n * l.elemSize && |offs| == |data| == l.numChans
    requires forall i :: 0 <= i < |offs| ==> offs[i] == l.Offset(i)
    requires forall i :: 0 <= i < |offs| ==> offs[i] + w <= |b| && b[offs[i]..offs[i] + w] == data[i]
    ensures HoldsChannels(l, b, n, data)
  {
    hide Layout.BuffSize, Layout.Offset, Layout.Bytes;
  }

  // ---------- datagrams of more than one packet ----------

  lemma WellFormedBytes(l: Layout, d: seq<byte>)
    requires l.Valid() && WellFormed(l, d)
    ensures HEADER_SIZE <= |d| <= l.Bytes(l.BuffSize())
  {
    var n, b := Decode(d).elems, l.BuffSize();
    hide Decode, Layout.BuffSize;
    MulMonotone((l.numChans - 1) * b + Max(n, 0), (l.numChans - 1) * b + b, l.elemSize);
  }

  lemma OnePacket(c: Link, d: seq<byte>)
    requires c.l.Valid() && c.WholePackets() && c.datagram && WellFormed(c.l, d)
    ensures Packets(d) == [d]
  {
    WellFormedBytes(c.l, d);
    PacketIntact(d);
  }

  /** A sent datagram joins those the transport holds, unless it is cut up into packets. */
  lemma SendTransports(c: Link, inbox: seq<seq<byte>>, queue: seq<seq<byte>>, d: seq<byte>, pieces: seq<seq<byte>>)
    requires c.l.Valid() && c.WholePackets() && WellFormed(c.l, d) && SentAs(c, d, pieces)
    requires Transported(c, inbox, queue)
    ensures Transported(c, inbox + pieces, queue + [d])
  {
    if c.datagram {
      OnePacket(c, d);
    } else {
      FlattenAppend(inbox, pieces);
      FlattenOne(queue, d);
    }
  }

  /** A full datagram, with all samples 0. */
  function FullDatagram(l: Layout): (d: seq<byte>)
    requires l.Valid()
    ensures |d| == l.Bytes(l.BuffSize())
  {
    BytesAfterHeader(l, l.BuffSize());
    var bytes := l.Bytes(l.BuffSize());
    Encode(Header(bytes, 0, l.BuffSize(), NO_FLAGS, 0)) + seq(bytes - HEADER_SIZE, _ => 0)
  }

  lemma FullHeader(l: Layout)
    requires l.Valid() && l.xferSize < 0x8000_0000
    ensures HEADER_SIZE <= |FullDatagram(l)|
    ensures Decode(FullDatagram(l)) == Header(|FullDatagram(l)|, 0, l.BuffSize(), NO_FLAGS, 0)
  {
    var bytes, b := l.Bytes(l.BuffSize()), l.BuffSize();
    SentInRange(l, b);
    PowersOf256();
    hide Encode, Decode, Layout.BuffSize, Layout.Bytes;
    HeaderRoundTrip(Header(bytes, 0, b, NO_FLAGS, 0), seq(bytes - HEADER_SIZE, _ => 0));
  }

  lemma FullIsWellFormed(l: Layout)
    requires l.Valid() && l.xferSize < 0x8000_0000
    ensures WellFormed(l, FullDatagram(l))
  {
    FullHeader(l);
  }

  /** In datagram mode every datagram leaves in one packet exactly when a full one fits. */
  lemma WholeExactly(l: Layout)
    requires l.Valid() && l.xferSize < 0x8000_0000
    ensures Link(l, true).WholePackets() <==> forall d :: WellFormed(l, d) ==> Packets(d) == [d]
    ensures l.xferSize <= BUFFMAX ==> Link(l, true).WholePackets()
  {
    FullIsWellFormed(l);
    PacketIntact(FullDatagram(l));
    RegionsFit(l, 0, l.BuffSize());
    hide Packets;
    if Link(l, true).WholePackets() {
      forall d | WellFormed(l, d) ensures Packets(d) == [d] {
        OnePacket(Link(l, true), d);
      }
    }
  }

  /** A longer datagram is never delivered whole: its first packet is taken in as an error. */
  lemma LongDatagramRefused(c: Link, d: seq<byte>, later: seq<seq<byte>>)
    requires c.Valid() && c.datagram && WellFormed(c.l, d) && |d| > BUFFMAX
    ensures var inbox := Packets(d) + later;
            && Arrived(c.l, true, inbox) && Incoming(c.l, true, inbox) == d[..BUFFMAX]
            && Truncated(true, d[..BUFFMAX]) && RetOf(true, d[..BUFFMAX]) == STREAM_ERROR
  {
    WellFormedSize(c.l, d);
    DecodeFront(d, BUFFMAX);
    assert (Packets(d) + later)[0] == Packets(d)[0] == d[..BUFFMAX];
  }

  /** With jumbo transfers there is such a datagram: 9000 bytes of mtu, one channel, elements of 4 bytes. */
  lemma JumboDatagram() returns (c: Link, d: seq<byte>)
    ensures c == Link(Layout(9000 - PROTO_HEADER_SIZE, 1, 4), true) && c.Valid() && !c.WholePackets()
    ensures WellFormed(c.l, d) && |d| == 8952 > BUFFMAX
  {
    c := Link(Layout(8952, 1, 4), true);
    assert c.l.BuffSize() == 2232;
    d := FullDatagram(c.l);
    FullIsWellFormed(c.l);
  }

  /** n zero bytes for each channel. */
  function Zeros(l: Layout, n: nat): (r: seq<seq<byte>>)
    ensures |r| == l.numChans && forall i :: 0 <= i < |r| ==> r[i] == seq(n, _ => 0)
  {
    seq(l.numChans, _ => seq(n, _ => 0))
  }

  lemma FullHoldsZeros(l: Layout)
    requires l.Valid()
    ensures HoldsChannels(l, FullDatagram(l), l.BuffSize(), Zeros(l, l.BuffSize() * l.elemSize))
  {
    var b, w := l.BuffSize(), l.BuffSize() * l.elemSize;
    hide Layout.BuffSize, Layout.Offset, Layout.Bytes, Encode;
    var d := FullDatagram(l);
    forall i | 0 <= i < l.numChans ensures l.Offset(i) + w <= |d| && d[l.Offset(i)..l.Offset(i) + w] == seq(w, _ => 0) {
      RegionsFit(l, i, b);
    }
    HoldsWidth(l, d, b, w, Zeros(l, w), Offsets(l));
  }

  lemma BufferNotEmpty(c: Link)
    requires c.Valid() && !c.WholePackets()
    ensures c.l.BuffSize() > 0 && c.datagram && |FullDatagram(c.l)| > BUFFMAX
  {
  }
}
