/** The client's writeStream (client/Streaming.cpp): one datagram out of an application's buffers. */
module ClientSend {
  import opened Arithmetic
  import opened Bytes
  import opened Sequences
  import opened Sockets
  import opened FlowControl
  import opened HandleRing
  import opened BufferLayout
  import opened StreamFlags
  import opened DeviceStream
  import opened StreamEndpoint
  import opened Datagrams
  import Convert = ClientConvert

  /** A call that accepts all that it is offered passes the flags on as they are, any other one without END_BURST. */
  ghost predicate Passes(flags0: Flags, accepted: int, offered: nat, flags: Flags) {
    && (accepted < offered ==> !flags.endBurst) && (accepted == offered ==> flags == flags0)
    && flags.(endBurst := false) == flags0.(endBurst := false)
  }

  // ---------- one buffer, written piece by piece ----------

  /** A writeStream call: how many elements it was offered and accepted, and the flags it was given and sent. */
  datatype Call = Call(offered: nat, accepted: nat, given: Flags, sent: Flags)

  /** The calls that it takes to write a buffer when a datagram holds n elements: each is offered what is left, up to
      the one that accepts all of it. */
  ghost predicate WholeBuffer(n: nat, total: nat, calls: seq<Call>) {
    && calls != [] && calls[0].offered == total
    && (forall k :: 0 <= k < |calls| ==>
          && calls[k].accepted == Min(calls[k].offered, n)
          && Passes(calls[k].given, calls[k].accepted, calls[k].offered, calls[k].sent)
          && (calls[k].accepted < calls[k].offered <==> k < |calls| - 1))
    && (forall j, k :: 0 <= j < k < |calls| && k - j == 1 ==>
          calls[k].offered == calls[j].offered - calls[j].accepted)
  }

  function Accepted(calls: seq<Call>): nat {
    if calls == [] then 0 else calls[0].accepted + Accepted(calls[1..])
  }

  lemma {:induction false} AllAccepted(n: nat, total: nat, calls: seq<Call>)
    requires WholeBuffer(n, total, calls)
    ensures Accepted(calls) == total
    decreases |calls|
  {
    if |calls| > 1 {
      AllAccepted(n, total - calls[0].accepted, calls[1..]);
    } else {
      assert calls[1..] == [];
    }
  }

  /** If every call is given the same flags, the whole buffer goes out, END_BURST goes with exactly the last datagram,
      and the other flags with all. */
  lemma BurstEndsOnce(n: nat, total: nat, calls: seq<Call>, flags: Flags)
    requires WholeBuffer(n, total, calls) && forall k :: 0 <= k < |calls| ==> calls[k].given == flags
    ensures Accepted(calls) == total
    ensures forall k :: 0 <= k < |calls| ==>
              && (calls[k].sent.endBurst <==> flags.endBurst && k == |calls| - 1)
              && calls[k].sent.(endBurst := false) == flags.(endBurst := false)
  {
    AllAccepted(n, total, calls);
  }

  /** But a call clears the flag in the caller's own variable. If that is what the next call is given, END_BURST goes
      out exactly when a single call is enough. */
  lemma {:induction false} BurstIsForgotten(n: nat, total: nat, calls: seq<Call>, k: nat)
    requires WholeBuffer(n, total, calls) && calls[0].given.endBurst && k < |calls|
    requires forall i, j :: 0 <= i < j < |calls| && j - i == 1 ==> calls[j].given == calls[i].sent
    ensures calls[k].sent.endBurst <==> |calls| == 1
  {
    if k > 0 {
      BurstIsForgotten(n, total, calls, k - 1);
      assert calls[k].given == calls[k - 1].sent;
    }
  }

  class ClientStreamData {
    const endpoint: StreamEndpoint

    constructor (endpoint: StreamEndpoint)
      ensures this.endpoint == endpoint
    {
      this.endpoint := endpoint;
    }

    /** Copies the samples, in the wire format, to the channels' places in a buffer. */
    method FillBuffer(buf: array<byte>, offs: seq<nat>, buffs: seq<seq<byte>>, numElems: nat, numSamples: nat)
      requires endpoint.layout.Valid() && buf.Length == endpoint.layout.xferSize
          && numSamples <= endpoint.layout.BuffSize()
      requires |offs| == |buffs| == endpoint.layout.numChans && numSamples <= numElems
      requires forall i :: 0 <= i < |offs| ==> offs[i] == endpoint.layout.Offset(i)
      requires forall i :: 0 <= i < |buffs| ==> |buffs[i]| == numElems * endpoint.layout.elemSize
      modifies buf
      ensures var l := endpoint.layout;
              && (forall i :: 0 <= i < |buffs| ==> numSamples * l.elemSize <= |buffs[i]|)
              && HoldsChannels(l, buf[..], numSamples, Front(buffs, numSamples * l.elemSize))
    {
      hide Layout.BuffSize, Layout.Offset, HoldsChannels;
      ghost var l := endpoint.layout;
      FragmentBytes(l.elemSize, numElems, numSamples);
      FragmentBytes(l.elemSize, l.BuffSize(), numSamples);
      OffsetsSeparate(l, offs);
      FrontSizes(buffs, numSamples * l.elemSize);
      Scatter(buf, offs, Front(buffs, numSamples * endpoint.layout.elemSize));
      HoldsWidth(l, buf[..], numSamples, numSamples * l.elemSize, Front(buffs, numSamples * l.elemSize), offs);
    }

    /** writeStream: buffs[i] holds numElems elements for channel i. The window may be closed, or every handle taken;
        otherwise as many elements go out as a buffer holds. */
    method WriteStream(buffs: seq<seq<byte>>, numElems: nat, flags0: Flags, time: int)
      returns (ret: int, flags: Flags, ghost d: seq<byte>, ghost pieces: seq<seq<byte>>)
      requires endpoint.Valid() && AcksOnly(endpoint.streamSock.inbox) && flags0.Valid() && Fits(8, time)
      requires |buffs| == endpoint.layout.numChans
      requires forall i :: 0 <= i < |buffs| ==> |buffs[i]| == numElems * endpoint.layout.elemSize
      modifies endpoint, endpoint.acquired, endpoint.buffData, endpoint.streamSock
      ensures endpoint.Valid() && AcksOnly(endpoint.streamSock.inbox)
      ensures old(endpoint.numHandlesAcquired) == 0 ==> endpoint.numHandlesAcquired == 0
      ensures ret < 0 ==> flags == flags0 && endpoint.streamSock.outbox == old(endpoint.streamSock.outbox)
                          && (ret == TIMEOUT || (ret == STREAM_ERROR && old(endpoint.Handles()).Full()))
      ensures ret >= 0 ==>
                && ret == Min(numElems, endpoint.layout.BuffSize())
                && (forall i :: 0 <= i < |buffs| ==> ret * endpoint.layout.elemSize <= |buffs[i]|)
                && |d| >= HEADER_SIZE && flags == Decode(d).flags && Passes(flags0, ret, numElems, Decode(d).flags)
                && IsDatagram(endpoint.layout, d, ret, flags, time, Words.Wire(old(endpoint.lastSendSequence)),
                              Front(buffs, ret * endpoint.layout.elemSize))
                && endpoint.lastSendSequence == Words.IncSend(old(endpoint.lastSendSequence))
                && endpoint.streamSock.outbox == old(endpoint.streamSock.outbox) + pieces
                && SentAs(Link(endpoint.layout, endpoint.streamSock.datagram), d, pieces)
    {
      hide IsDatagram, Decode, SentAs, Passes, AfterAcks, Layout.BuffSize, Front, Ring.Reclaim, Ring.Fifo, Seqs.Blocked;
      flags, d, pieces := flags0, [], [];
      var ready := endpoint.WaitSend();
      if !ready {
        return TIMEOUT, flags, d, pieces;
      }
      if endpoint.numHandlesAcquired == 0 {
        AcquireThenRelease(endpoint.Handles());
      }
      ret, flags, d, pieces := SendBuffers(buffs, numElems, flags0, time);
      if ret >= 0 {
        FlagsSent(endpoint.layout, d, ret, flags, time, Words.Wire(old(endpoint.lastSendSequence)),
                  Front(buffs, ret * endpoint.layout.elemSize));
      }
    }

    /** writeStream of CS16 words with CS16 to CS12: the datagram carries the packed front of each buffer. */
    method WritePacked(buffs: seq<array<bv16>>, numElems: nat, flags0: Flags, time: int)
      returns (ret: int, flags: Flags, ghost d: seq<byte>, ghost pieces: seq<seq<byte>>, ghost data: seq<seq<byte>>)
      requires endpoint.Valid() && AcksOnly(endpoint.streamSock.inbox) && flags0.Valid() && Fits(8, time)
      requires |buffs| == endpoint.layout.numChans && endpoint.layout.elemSize == 3
      requires forall i :: 0 <= i < |buffs| ==> 2 * numElems <= buffs[i].Length
      modifies endpoint, endpoint.acquired, endpoint.buffData, endpoint.streamSock
      ensures endpoint.Valid() && AcksOnly(endpoint.streamSock.inbox)
      ensures ret < 0 ==> flags == flags0 && endpoint.streamSock.outbox == old(endpoint.streamSock.outbox)
      ensures ret >= 0 ==>
                && ret == Min(numElems, endpoint.layout.BuffSize())
                && |data| == |buffs|
                && (forall i :: 0 <= i < |buffs| ==>
                      && data[i] == Convert.FromOctets(Convert.Packed(old(buffs[i][..2 * numElems])[..2 * ret]))
                      && Convert.HoldsWords(old(buffs[i][..2 * numElems])[..2 * ret],
                                            Convert.Packed(old(buffs[i][..2 * numElems])[..2 * ret])))
                && |d| >= HEADER_SIZE && flags == Decode(d).flags && Passes(flags0, ret, numElems, Decode(d).flags)
                && IsDatagram(endpoint.layout, d, ret, flags, time, Words.Wire(old(endpoint.lastSendSequence)), data)
                && endpoint.streamSock.outbox == old(endpoint.streamSock.outbox) + pieces
                && SentAs(Link(endpoint.layout, endpoint.streamSock.datagram), d, pieces)
    {
      hide IsDatagram, Decode, Passes, SentAs, Layout.BuffSize, Convert.Packed, Convert.FromOctets, Convert.HoldsWords;
      var wire;
      ghost var words;
      wire, words := PackAll(buffs, numElems);
      ret, flags, d, pieces := WriteStream(wire, numElems, flags0, time);
      data := [];
      if ret >= 0 {
        data := Front(wire, 3 * ret);
        FrontOfPacked(words, wire, ret);
        forall i | 0 <= i < |buffs|
          ensures Convert.HoldsWords(words[i][..2 * ret], Convert.Packed(words[i][..2 * ret]))
        {
          Convert.PackedValues(words[i][..2 * ret]);
        }
      }
    }

    /** Fills a handle's buffer with the front of what is offered, and sends it. */
    method SendFront(handle: nat, offs: seq<nat>, buffs: seq<seq<byte>>, numElems: nat, numSamples: nat, flags: Flags,
                     time: int)
      returns (ghost d: seq<byte>, ghost pieces: seq<seq<byte>>)
      requires endpoint.Valid() && flags.Valid() && Fits(8, time) && |offs| == |buffs| == endpoint.layout.numChans
      requires handle < NUM_BUFFS && numSamples <= numElems && numSamples <= endpoint.layout.BuffSize()
      requires forall i :: 0 <= i < |offs| ==> offs[i] == endpoint.layout.Offset(i)
      requires forall i :: 0 <= i < |buffs| ==> |buffs[i]| == numElems * endpoint.layout.elemSize
      modifies endpoint, endpoint.acquired, endpoint.buffData[handle], endpoint.streamSock`outbox
      ensures endpoint.Valid() && endpoint.Handles() == old(endpoint.Handles()).Release(handle)
      ensures endpoint.lastSendSequence == Words.IncSend(old(endpoint.lastSendSequence))
      ensures forall i :: 0 <= i < |buffs| ==> numSamples * endpoint.layout.elemSize <= |buffs[i]|
      ensures IsDatagram(endpoint.layout, d, numSamples, flags, time, Words.Wire(old(endpoint.lastSendSequence)),
                         Front(buffs, numSamples * endpoint.layout.elemSize))
      ensures endpoint.streamSock.outbox == old(endpoint.streamSock.outbox) + pieces
      ensures SentAs(Link(endpoint.layout, endpoint.streamSock.datagram), d, pieces)
    {
      hide HoldsChannels, IsDatagram, Decode, Layout.Offset, Layout.Bytes, Layout.BuffSize, Encode, Flatten, Packets,
           Front, Ring.Reclaim;
      var buf := endpoint.buffData[handle];
      FillBuffer(buf, offs, buffs, numElems, numSamples);
      ghost var filled := buf[..];
      ghost var h := endpoint.SendHeader(numSamples, flags, time);
      pieces := endpoint.ReleaseSend(handle, numSamples, flags, time);
      SentIsDatagram(endpoint.layout, filled, numSamples, h, buf[..],
                     Front(buffs, numSamples * endpoint.layout.elemSize));
      d := buf[..h.bytes];
    }

    method SendBuffers(buffs: seq<seq<byte>>, numElems: nat, flags0: Flags, time: int)
      returns (ret: int, flags: Flags, ghost d: seq<byte>, ghost pieces: seq<seq<byte>>)
      requires endpoint.Valid() && flags0.Valid() && Fits(8, time) && |buffs| == endpoint.layout.numChans
      requires forall i :: 0 <= i < |buffs| ==> |buffs[i]| == numElems * endpoint.layout.elemSize
      modifies endpoint, endpoint.acquired, endpoint.buffData, endpoint.streamSock`outbox
      ensures endpoint.Valid()
      ensures old(endpoint.Handles()).Full() ==>
                && ret == STREAM_ERROR && flags == flags0 && endpoint.Handles() == old(endpoint.Handles())
                && endpoint.streamSock.outbox == old(endpoint.streamSock.outbox)
      ensures !old(endpoint.Handles()).Full() ==>
                var r := old(endpoint.Handles());
                && r.Acquire().Valid() && endpoint.Handles() == r.Acquire().Release(r.next)
                && ret == Min(numElems, endpoint.layout.BuffSize())
                && (forall i :: 0 <= i < |buffs| ==> ret * endpoint.layout.elemSize <= |buffs[i]|)
                && Passes(flags0, ret, numElems, flags)
                && IsDatagram(endpoint.layout, d, ret, flags, time, Words.Wire(old(endpoint.lastSendSequence)),
                              Front(buffs, ret * endpoint.layout.elemSize))
                && endpoint.lastSendSequence == Words.IncSend(old(endpoint.lastSendSequence))
                && endpoint.streamSock.outbox == old(endpoint.streamSock.outbox) + pieces
                && SentAs(Link(endpoint.layout, endpoint.streamSock.datagram), d, pieces)
    {
      hide HoldsChannels, IsDatagram, SentAs, Decode, Layout.Offset, Layout.Bytes, Layout.BuffSize, Encode, Flatten,
           Packets, Front, Ring.Reclaim;
      flags, d, pieces := flags0, [], [];
      if !endpoint.Handles().Full() {
        AcquireRefines(endpoint.Handles());
      }
      var handle, offs;
      ret, handle, offs := endpoint.AcquireSend();
      if ret < 0 {
        return;
      }
      var numSamples := Min(ret, numElems);
      if numSamples < numElems {
        flags := flags.(endBurst := false);
      }
      d, pieces := SendFront(handle, offs, buffs, numElems, numSamples, flags, time);
      ret := numSamples;
    }
  }

  lemma FlagsSent(l: Layout, d: seq<byte>, n: nat, flags: Flags, time: int, seqno: int, data: seq<seq<byte>>)
    requires l.Valid() && IsDatagram(l, d, n, flags, time, seqno, data)
    ensures |d| >= HEADER_SIZE && Decode(d).flags == flags
  {
  }

  lemma FrontSizes(s: seq<seq<byte>>, n: nat)
    requires forall i :: 0 <= i < |s| ==> n <= |s[i]|
    ensures forall i :: 0 <= i < |s| ==> |Front(s, n)[i]| == n
  {
  }

  /** convertSendBuffs with CS16 to CS12, for all channels. */
  method PackAll(ins: seq<array<bv16>>, numElems: nat) returns (wire: seq<seq<byte>>, ghost words: seq<seq<bv16>>)
    requires forall i :: 0 <= i < |ins| ==> 2 * numElems <= ins[i].Length
    ensures |wire| == |words| == |ins|
    ensures forall i :: 0 <= i < |ins| ==> words[i] == ins[i][..2 * numElems]
    ensures forall i :: 0 <= i < |wire| ==> wire[i] == Convert.FromOctets(Convert.Packed(ins[i][..2 * numElems]))
    ensures forall i :: 0 <= i < |wire| ==>
              wire[i] == Convert.FromOctets(Convert.Packed(words[i])) && |wire[i]| == 3 * numElems
  {
    hide Convert.Packed, Convert.FromOctets;
    wire, words := [], [];
    for c := 0 to |ins|
      invariant |wire| == |words| == c
      invariant forall i :: 0 <= i < c ==> words[i] == ins[i][..2 * numElems]
      invariant forall i :: 0 <= i < c ==>
                  wire[i] == Convert.FromOctets(Convert.Packed(words[i])) && |wire[i]| == 3 * numElems
    {
      var word, packed := ins[c][..2 * numElems], new Convert.octet[3 * numElems];
      Convert.ConvertSend(word, packed, numElems);
      assert packed[..] == packed[..3 * numElems] && word == word[..2 * numElems];
      wire, words := wire + [Convert.FromOctets(packed[..])], words + [word];
    }
  }

  lemma FrontOfPacked(words: seq<seq<bv16>>, wire: seq<seq<byte>>, k: nat)
    requires |wire| == |words| && forall i :: 0 <= i < |words| ==> 2 * k <= |words[i]|
    requires forall i :: 0 <= i < |wire| ==> wire[i] == Convert.FromOctets(Convert.Packed(words[i]))
    ensures forall i :: 0 <= i < |wire| ==> 3 * k <= |wire[i]|
    ensures forall i :: 0 <= i < |wire| ==>
              Front(wire, 3 * k)[i] == Convert.FromOctets(Convert.Packed(words[i][..2 * k]))
  {
    hide Convert.Packed, Convert.FromOctets;
    forall i | 0 <= i < |wire|
      ensures 3 * k <= |wire[i]| && wire[i][..3 * k] == Convert.FromOctets(Convert.Packed(words[i][..2 * k]))
    {
      FrontOfOne(words[i], k);
    }
  }

  lemma FrontOfOne(t: seq<bv16>, k: nat)
    requires 2 * k <= |t|
    ensures 3 * k <= |Convert.Packed(t)|
    ensures Convert.FromOctets(Convert.Packed(t))[..3 * k] == Convert.FromOctets(Convert.Packed(t[..2 * k]))
  {
    hide Convert.Packed;
    Convert.PackedFront(t, k);
  }
}
