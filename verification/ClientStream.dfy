/** The client's readStream (client/Streaming.cpp): hands out one datagram in fragments of any size. */
module ClientStream {
  import opened Arithmetic
  import opened Bytes
  import opened Sequences
  import opened Sockets
  import opened FlowControl
  import opened HandleRing
  import opened BufferLayout
  import opened StreamFlags
  import opened Datagrams
  import opened DeviceStream
  import opened StreamEndpoint
  import opened ClientConvert

  class ClientStreamData {
    const endpoint: StreamEndpoint
    var readHandle: nat
    var readElemsLeft: nat
    // for each channel, the offset of its next sample in the buffer of readHandle
    var recvBuffs: seq<nat>

    /** A handle is held exactly while samples of its datagram are left. */
    ghost predicate Valid()
      reads this, endpoint, endpoint.acquired
    {
      && endpoint.Valid() && |recvBuffs| == endpoint.layout.numChans
      && endpoint.Handles().Fifo() == (if readElemsLeft > 0 then [Entry(readHandle, false)] else [])
      && (readElemsLeft > 0 ==>
            readHandle < NUM_BUFFS
            && forall i :: 0 <= i < |recvBuffs| ==>
                 recvBuffs[i] + readElemsLeft * endpoint.layout.elemSize <= endpoint.layout.xferSize)
    }

    /** What is left of the current datagram, for each channel. */
    ghost function Pending(): (r: seq<seq<byte>>)
      requires Valid()
      reads this, endpoint, endpoint.acquired, endpoint.buffData
      ensures |r| == endpoint.layout.numChans
      ensures forall i :: 0 <= i < |r| ==> |r[i]| == readElemsLeft * endpoint.layout.elemSize
    {
      if readElemsLeft == 0 then NoData(endpoint.layout.numChans)
      else Slices(endpoint.buffData[readHandle][..], recvBuffs, readElemsLeft * endpoint.layout.elemSize)
    }

    constructor (endpoint: StreamEndpoint)
      requires endpoint.Valid() && endpoint.numHandlesAcquired == 0
      ensures this.endpoint == endpoint && Valid() && readElemsLeft == 0
    {
      this.endpoint := endpoint;
      readHandle, readElemsLeft := 0, 0;
      recvBuffs := seq(endpoint.layout.numChans, _ => 0);
    }

    /** The datagram that acquireRecv takes in becomes the current one. */
    method TakeDatagram(flags0: Flags, time0: int) returns (ret: int, flags: Flags, time: int)
      requires Valid() && readElemsLeft == 0 && Deliverable(endpoint) && endpoint.streamSock.inbox != []
      modifies this, endpoint, endpoint.acquired, endpoint.buffData, endpoint.streamSock
      ensures var sock := endpoint.streamSock;
              TookIn(sock.datagram, old(sock.inbox), sock.inbox, flags0, time0, ret, flags, time)
    {
      hide Decode, Flatten, Layout.BuffSize, Layout.Offset, Layout.Bytes, Ring.Reclaim, Seqs.AckDue;
      AcquireRefines(endpoint.Handles());
      ghost var q := endpoint.Handles().Fifo();
      ghost var d := Incoming(endpoint.layout, endpoint.streamSock.datagram, endpoint.streamSock.inbox);
      ghost var b := endpoint.buffData[endpoint.nextHandleAcquire][..];
      ret, readHandle, recvBuffs, flags, time := endpoint.AcquireRecv(recvBuffs, flags0, time0);
      assert q == [];
      if ret >= 0 {
        readElemsLeft := ret;
        ReceivedChannels(endpoint.layout, b, d, ret, recvBuffs);
      }
    }

    /** A datagram was taken in: a truncated one is an error, an error code is passed on, and the samples of any
        other are all unread. */
    ghost predicate TookIn(datagram: bool, before: seq<seq<byte>>, after: seq<seq<byte>>, flags0: Flags, time0: int,
                           ret: int, flags: Flags, time: int)
      requires endpoint.layout.Valid() && Arrived(endpoint.layout, datagram, before)
      reads this, endpoint, endpoint.acquired, endpoint.buffData
    {
      var d := Incoming(endpoint.layout, datagram, before);
      && ret == RetOf(datagram, d) && Consumed(datagram, before, d, after) && readElemsLeft == Max(ret, 0)
      && flags == (if Truncated(datagram, d) then flags0 else Decode(d).flags)
      && time == (if Truncated(datagram, d) then time0 else Decode(d).time)
      && if ret < 0 then Valid()
         else WellFormed(endpoint.layout, d) && Reading() && Unread() == Channels(endpoint.layout, d, ret)
    }

    /** acquireReadBuffer, when nothing is left of the last datagram. */
    method AcquireReadBuffer(flags0: Flags, time0: int) returns (ret: int, flags: Flags, time: int)
      requires Valid() && readElemsLeft == 0 && Deliverable(endpoint)
      modifies this, endpoint, endpoint.acquired, endpoint.buffData, endpoint.streamSock
      ensures var sock := endpoint.streamSock;
              if old(sock.inbox) == [] then
                ret == TIMEOUT && Valid() && readElemsLeft == 0 && sock.inbox == [] && flags == flags0 && time == time0
              else TookIn(sock.datagram, old(sock.inbox), sock.inbox, flags0, time0, ret, flags, time)
    {
      flags, time := flags0, time0;
      var ready := endpoint.WaitRecv();
      if !ready {
        return TIMEOUT, flags, time;
      }
      ret, flags, time := TakeDatagram(flags0, time0);
    }

    /** readStream. The fragments are what the converter is given for each channel. */
    method ReadStream(numElems: nat, flags0: Flags, time0: int)
      returns (ret: int, out: seq<seq<byte>>, flags: Flags, time: int)
      requires Valid() && (readElemsLeft == 0 ==> Deliverable(endpoint))
      modifies this, endpoint, endpoint.acquired, endpoint.buffData, endpoint.streamSock
      ensures Valid()
      ensures ReadCall(endpoint.layout, endpoint.streamSock.datagram, old(endpoint.streamSock.inbox), old(Pending()),
                       old(readElemsLeft), numElems, ret, out, endpoint.streamSock.inbox, Pending(), readElemsLeft)
      ensures HeaderRead(endpoint.layout, endpoint.streamSock.datagram, old(endpoint.streamSock.inbox),
                         old(readElemsLeft), flags0, time0, readElemsLeft, flags, time)
    {
      hide Decode, Flatten, WellFormed, Consumed, Channels, Fragment, Slices, Layout.BuffSize, Layout.Bytes, Ring.Fifo;
      flags, time, out := flags0, time0, NoData(endpoint.layout.numChans);
      if readElemsLeft == 0 {
        ret, flags, time := AcquireReadBuffer(flags0, time0);
        if ret < 0 {
          return;
        }
      }
      ret, out, flags := TakeFragment(numElems, flags);
    }

    /** The application's buffers are not the endpoint's, and each is another one. */
    ghost predicate Foreign<T>(buffs: seq<array<T>>)
      reads this
    {
      && |buffs| == endpoint.layout.numChans
      && (forall i :: 0 <= i < |buffs| ==>
            buffs[i] as object !in endpoint.buffData && buffs[i] as object != endpoint.acquired)
      && (forall i, j :: 0 <= i < j < |buffs| ==> buffs[i] != buffs[j])
    }

    /** readStream into the application's buffers, with CONVERT_MEMCPY: each channel's fragment goes to the front of its
        buffer, and nothing else of it changes. */
    method ReadInto(buffs: seq<array<byte>>, numElems: nat, flags0: Flags, time0: int)
      returns (ret: int, flags: Flags, time: int, ghost out: seq<seq<byte>>)
      requires Valid() && (readElemsLeft == 0 ==> Deliverable(endpoint)) && Foreign(buffs)
      requires forall i :: 0 <= i < |buffs| ==> numElems * endpoint.layout.elemSize <= buffs[i].Length
      modifies this, endpoint, endpoint.acquired, endpoint.buffData, endpoint.streamSock, buffs
      ensures Valid() && |out| == |buffs|
      ensures ReadCall(endpoint.layout, endpoint.streamSock.datagram, old(endpoint.streamSock.inbox), old(Pending()),
                       old(readElemsLeft), numElems, ret, out, endpoint.streamSock.inbox, Pending(), readElemsLeft)
      ensures HeaderRead(endpoint.layout, endpoint.streamSock.datagram, old(endpoint.streamSock.inbox),
                         old(readElemsLeft), flags0, time0, readElemsLeft, flags, time)
      ensures forall i :: 0 <= i < |buffs| ==> |out[i]| <= buffs[i].Length
      ensures forall i :: 0 <= i < |buffs| ==> buffs[i][..] == Written(old(buffs[i][..]), 0, out[i])
    {
      hide ReadCall, HeaderRead, Unpacked, Octets, HoldsSamples, Layout.BuffSize, Layout.Offset, Ring.Fifo, Slices;
      var data;
      ret, data, flags, time := ReadStream(numElems, flags0, time0);
      out := data;
      ReadSizes(endpoint.layout, endpoint.streamSock.datagram, old(endpoint.streamSock.inbox), old(Pending()),
                old(readElemsLeft), numElems, ret, out, endpoint.streamSock.inbox, Pending(), readElemsLeft);
      MemcpyAll(data, buffs);
    }

    /** The same with CS16 from CS12: the fragment's samples are unpacked into the front of the buffer. */
    method ReadPacked(buffs: seq<array<bv16>>, numElems: nat, flags0: Flags, time0: int)
      returns (ret: int, flags: Flags, time: int, ghost out: seq<seq<byte>>)
      requires Valid() && (readElemsLeft == 0 ==> Deliverable(endpoint))
      requires Foreign(buffs) && endpoint.layout.elemSize == 3
      requires forall i :: 0 <= i < |buffs| ==> 2 * numElems <= buffs[i].Length
      modifies this, endpoint, endpoint.acquired, endpoint.buffData, endpoint.streamSock, buffs
      ensures Valid() && |out| == |buffs| && Max(ret, 0) <= numElems
      ensures ReadCall(endpoint.layout, endpoint.streamSock.datagram, old(endpoint.streamSock.inbox), old(Pending()),
                       old(readElemsLeft), numElems, ret, out, endpoint.streamSock.inbox, Pending(), readElemsLeft)
      ensures HeaderRead(endpoint.layout, endpoint.streamSock.datagram, old(endpoint.streamSock.inbox),
                         old(readElemsLeft), flags0, time0, readElemsLeft, flags, time)
      ensures forall i :: 0 <= i < |buffs| ==>
                && buffs[i][..2 * Max(ret, 0)] == Unpacked(Octets(out[i]))
                && HoldsSamples(Octets(out[i]), buffs[i][..2 * Max(ret, 0)])
      ensures forall i :: 0 <= i < |buffs| ==> buffs[i][2 * Max(ret, 0)..] == old(buffs[i][2 * Max(ret, 0)..])
    {
      hide ReadCall, HeaderRead, Unpacked, Octets, HoldsSamples, Layout.BuffSize, Layout.Offset, Ring.Fifo, Slices;
      var data;
      ret, data, flags, time := ReadStream(numElems, flags0, time0);
      out := data;
      ReadSizes(endpoint.layout, endpoint.streamSock.datagram, old(endpoint.streamSock.inbox), old(Pending()),
                old(readElemsLeft), numElems, ret, out, endpoint.streamSock.inbox, Pending(), readElemsLeft);
      UnpackAll(data, buffs, Max(ret, 0));
    }

    /** The current datagram's samples from the read position on. */
    ghost function Unread(): (r: seq<seq<byte>>)
      requires Reading()
      reads this, endpoint, endpoint.acquired, endpoint.buffData
    {
      Slices(endpoint.buffData[readHandle][..], recvBuffs, readElemsLeft * endpoint.layout.elemSize)
    }

    /** A datagram is at hand, perhaps an empty one. */
    ghost predicate Reading()
      reads this, endpoint, endpoint.acquired
    {
      && endpoint.Valid() && |recvBuffs| == endpoint.layout.numChans && readHandle < NUM_BUFFS
      && endpoint.Handles().Fifo() == [Entry(readHandle, false)]
      && forall i :: 0 <= i < |recvBuffs| ==>
           recvBuffs[i] + readElemsLeft * endpoint.layout.elemSize <= endpoint.layout.xferSize
    }

    /** The part of readStream after a datagram is at hand. */
    method TakeFragment(numElems: nat, flags0: Flags) returns (ret: int, out: seq<seq<byte>>, flags: Flags)
      requires Reading()
      modifies this, endpoint, endpoint.acquired
      ensures Valid()
      ensures Fragment(endpoint.layout, old(Unread()), old(readElemsLeft), numElems, ret, out, Pending(), readElemsLeft)
      ensures flags == if readElemsLeft > 0 then flags0.(moreFragments := true) else flags0
    {
      ghost var buf := endpoint.buffData[readHandle][..];
      var numSamples := Min(numElems, readElemsLeft);
      FragmentBytes(endpoint.layout.elemSize, readElemsLeft, numSamples);
      FragmentOfSlices(endpoint.layout, buf, recvBuffs, readElemsLeft, numElems);
      out := Slices(endpoint.buffData[readHandle][..], recvBuffs, numSamples * endpoint.layout.elemSize);
      ret := numSamples;
      Advance(numSamples);
      flags := if readElemsLeft > 0 then flags0.(moreFragments := true) else flags0;
    }

    /** Moves the read position; the handle is given back with its last sample. */
    method Advance(numSamples: nat)
      requires Reading() && numSamples <= readElemsLeft
      modifies this, endpoint, endpoint.acquired
      ensures Valid() && readElemsLeft == old(readElemsLeft) - numSamples
      ensures var es := endpoint.layout.elemSize;
              && (forall i :: 0 <= i < |old(recvBuffs)| ==>
                    old(recvBuffs)[i] + numSamples * es + readElemsLeft * es <= endpoint.layout.xferSize)
              && Pending() == Slices(endpoint.buffData[old(readHandle)][..], Moved(old(recvBuffs), numSamples * es),
                                     readElemsLeft * es)
    {
      hide Layout.BuffSize, Layout.Offset, Ring.Reclaim;
      FragmentBytes(endpoint.layout.elemSize, readElemsLeft, numSamples);
      readElemsLeft := readElemsLeft - numSamples;
      if readElemsLeft == 0 {
        ReleaseRefines(endpoint.Handles(), readHandle);
        ReleaseOnly(readHandle);
        endpoint.ReleaseRecv(readHandle);
      } else {
        var offsetBytes := endpoint.layout.elemSize * numSamples;
        recvBuffs := Moved(recvBuffs, offsetBytes);
      }
    }
  }

  /** convertRecvBuffs with CONVERT_MEMCPY, for all channels. */
  method MemcpyAll(ins: seq<seq<byte>>, outs: seq<array<byte>>)
    requires |ins| == |outs| && forall i :: 0 <= i < |outs| ==> |ins[i]| <= outs[i].Length
    requires forall i, j :: 0 <= i < j < |outs| ==> outs[i] != outs[j]
    modifies outs
    ensures forall i :: 0 <= i < |outs| ==> outs[i][..] == Written(old(outs[i][..]), 0, ins[i])
  {
    for c := 0 to |outs|
      invariant forall i :: 0 <= i < |outs| ==>
                  outs[i][..] == if i < c then Written(old(outs[i][..]), 0, ins[i]) else old(outs[i][..])
    {
      CopyIn(outs[c], 0, ins[c]);
    }
  }

  /** convertRecvBuffs with CS16 from CS12, for all channels. */
  method UnpackAll(ins: seq<seq<byte>>, outs: seq<array<bv16>>, numElems: nat)
    requires |ins| == |outs|
    requires forall i :: 0 <= i < |outs| ==> |ins[i]| == 3 * numElems && 2 * numElems <= outs[i].Length
    requires forall i, j :: 0 <= i < j < |outs| ==> outs[i] != outs[j]
    modifies outs
    ensures forall i :: 0 <= i < |outs| ==>
              && outs[i][..2 * numElems] == Unpacked(Octets(ins[i]))
              && HoldsSamples(Octets(ins[i]), outs[i][..2 * numElems])
    ensures forall i :: 0 <= i < |outs| ==> outs[i][2 * numElems..] == old(outs[i][2 * numElems..])
  {
    hide Unpacked, Octets, HoldsSamples;
    for c := 0 to |outs|
      invariant forall i :: 0 <= i < c ==>
                  && outs[i][..2 * numElems] == Unpacked(Octets(ins[i]))
                  && HoldsSamples(Octets(ins[i]), outs[i][..2 * numElems])
      invariant forall i :: 0 <= i < |outs| ==> outs[i][2 * numElems..] == old(outs[i][2 * numElems..])
    {
      assert Octets(ins[c])[..3 * numElems] == Octets(ins[c]);
      ConvertRecv(Octets(ins[c]), outs[c], numElems);
    }
  }

  /** A call hands out as many elements of each channel as it returns. */
  lemma ReadSizes(l: Layout, datagram: bool, inbox: seq<seq<byte>>, pending: seq<seq<byte>>, left: nat, n: nat,
                  ret: int, out: seq<seq<byte>>, inbox': seq<seq<byte>>, pending': seq<seq<byte>>, left': nat)
    requires l.Valid() && |pending| == l.numChans
    requires ReadCall(l, datagram, inbox, pending, left, n, ret, out, inbox', pending', left')
    ensures |out| == l.numChans && Max(ret, 0) <= n
    ensures forall i :: 0 <= i < |out| ==> |out[i]| == Max(ret, 0) * l.elemSize <= n * l.elemSize
  {
    MulMonotone(Max(ret, 0), n, l.elemSize);
    if left > 0 {
      assert forall i :: 0 <= i < |out| ==> |out[i]| == ret * l.elemSize;
    }
  }

  /** A readStream call that takes in a datagram gives its flags and time, any other one leaves the caller's; and
      MORE_FRAGMENTS is set as long as samples are left. */
  ghost predicate HeaderRead(l: Layout, datagram: bool, inbox: seq<seq<byte>>, left: nat, flags0: Flags, time0: int,
                             left': nat, flags: Flags, time: int)
    requires l.Valid() && (left == 0 && inbox != [] ==> Arrived(l, datagram, inbox))
  {
    if left == 0 && inbox != [] && !Truncated(datagram, Incoming(l, datagram, inbox)) then
      var h := Decode(Incoming(l, datagram, inbox));
      && time == h.time && flags.moreFragments == (h.flags.moreFragments || left' > 0)
      && flags.(moreFragments := false) == h.flags.(moreFragments := false)
    else
      && time == time0 && flags.moreFragments == (flags0.moreFragments || left' > 0)
      && flags.(moreFragments := false) == flags0.(moreFragments := false)
  }

  /** One readStream call: out of the current datagram, or of the next one if nothing is left of it;
      a timeout if there is none, the sender's error code, or an error for a packet that is not whole. */
  ghost predicate ReadCall(l: Layout, datagram: bool, inbox: seq<seq<byte>>, pending: seq<seq<byte>>, left: nat, n: nat,
                           ret: int, out: seq<seq<byte>>, inbox': seq<seq<byte>>, pending': seq<seq<byte>>, left': nat)
    requires l.Valid()
  {
    if left > 0 then inbox' == inbox && Fragment(l, pending, left, n, ret, out, pending', left')
    else if inbox == [] then
      ret == TIMEOUT && out == NoData(l.numChans) && inbox' == [] && pending' == NoData(l.numChans) && left' == 0
    else
      && Arrived(l, datagram, inbox)
      && var d := Incoming(l, datagram, inbox);
         && (WellFormed(l, d) || Truncated(datagram, d)) && Consumed(datagram, inbox, d, inbox')
         && var elems := RetOf(datagram, d);
            if elems < 0 then ret == elems && out == NoData(l.numChans) && pending' == NoData(l.numChans) && left' == 0
            else Fragment(l, Channels(l, d, elems), elems, n, ret, out, pending', left')
  }

  lemma FragmentOfSlices(l: Layout, buf: seq<byte>, offs: seq<nat>, total: nat, n: nat)
    requires forall i :: 0 <= i < |offs| ==> offs[i] + total * l.elemSize <= |buf|
    ensures var k := Min(n, total);
            && k * l.elemSize <= total * l.elemSize
            && (forall i :: 0 <= i < |offs| ==> offs[i] + k * l.elemSize + (total - k) * l.elemSize <= |buf|)
            && Fragment(l, Slices(buf, offs, total * l.elemSize), total, n, k, Slices(buf, offs, k * l.elemSize),
                        Slices(buf, Moved(offs, k * l.elemSize), (total - k) * l.elemSize), total - k)
  {
    var k := Min(n, total);
    FragmentBytes(l.elemSize, total, k);
    SlicesSplit(buf, offs, total * l.elemSize, k * l.elemSize);
  }

  /** A read of up to n elements out of whole, which holds total elements, gives out the front and leaves the rest. */
  ghost predicate Fragment(l: Layout, whole: seq<seq<byte>>, total: nat, n: nat,
                           ret: int, out: seq<seq<byte>>, left: seq<seq<byte>>, elemsLeft: nat)
  {
    && ret == Min(n, total) && elemsLeft == total - ret
    && (forall i :: 0 <= i < |whole| ==> ret * l.elemSize <= |whole[i]|)
    && out == Front(whole, ret * l.elemSize) && left == Back(whole, ret * l.elemSize)
  }
}
