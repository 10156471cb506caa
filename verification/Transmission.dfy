/** Transmission as a whole: the client's writeStream, a lossless transport and the server's receive worker. */
module Transmission {
  import opened Arithmetic
  import opened Bytes
  import opened Sequences
  import opened Sockets
  import opened FlowControl
  import opened BufferLayout
  import opened StreamFlags
  import opened StreamEndpoint
  import opened DeviceStream
  import opened Datagrams
  import opened ServerReceiveWorker

  /** inbox is what the transport will deliver to the server, queue the datagrams this stands for; sent is what the
      application's calls passed on, log what the worker did with the datagrams it took in, until it quit. */
  datatype System = System(inbox: seq<seq<byte>>, queue: seq<seq<byte>>, sent: seq<seq<byte>>, log: seq<Handled>,
                           quit: bool)

  ghost predicate Init(c: Link, s: System)
    requires c.Valid()
  {
    s == System([], [], NoData(c.l.numChans), [], false)
  }

  /** A writeStream call sends n elements, in any pieces the transport likes. */
  ghost predicate WriteStep(c: Link, s: System, t: System, d: seq<byte>, n: nat, flags: Flags, time: int, seqno: int,
                            data: seq<seq<byte>>, pieces: seq<seq<byte>>)
    requires c.Valid()
  {
    && IsDatagram(c.l, d, n, flags, time, seqno, data) && SentAs(c, d, pieces)
    && |s.sent| == |data|
    && t == s.(inbox := s.inbox + pieces, queue := s.queue + [d], sent := Appended(s.sent, data))
  }

  /** A call of writeStream is such a step: what its contract says of the datagram and the pieces is what it needs. */
  lemma WriteIsStep(c: Link, s: System, d: seq<byte>, n: nat, flags: Flags, time: int, seqno: int,
                    data: seq<seq<byte>>, pieces: seq<seq<byte>>)
    requires c.Valid() && |s.sent| == |data|
    requires IsDatagram(c.l, d, n, flags, time, seqno, data) && SentAs(c, d, pieces)
    ensures Step(c, s, s.(inbox := s.inbox + pieces, queue := s.queue + [d], sent := Appended(s.sent, data)))
  {
    hide IsDatagram, SentAs;
    var t := s.(inbox := s.inbox + pieces, queue := s.queue + [d], sent := Appended(s.sent, data));
    assert WriteStep(c, s, t, d, n, flags, time, seqno, data, pieces);
  }

  /** A stream may be cut up differently at any time. */
  ghost predicate RechunkStep(c: Link, s: System, t: System) {
    Rechunked(c, s.inbox, t.inbox) && t == s.(inbox := t.inbox)
  }

  /** The worker takes in the datagram at the front, and the device and the stop flag do with it what they like. */
  ghost predicate HandleStep(c: Link, s: System, t: System, h: Handled)
    requires c.Valid()
  {
    && !s.quit && Arrived(c.l, c.datagram, s.inbox) && h.d == Incoming(c.l, c.datagram, s.inbox) && h.Valid(c.l)
    && Consumed(c.datagram, s.inbox, h.d, t.inbox)
    && t == s.(inbox := t.inbox, queue := Rest(s.queue), log := s.log + [h])
  }

  /** What comes in is not a whole datagram, or an error code: the worker quits. */
  ghost predicate QuitStep(c: Link, s: System, t: System)
    requires c.Valid()
  {
    && !s.quit && Arrived(c.l, c.datagram, s.inbox) && RetOf(c.datagram, Incoming(c.l, c.datagram, s.inbox)) < 0
    && Consumed(c.datagram, s.inbox, Incoming(c.l, c.datagram, s.inbox), t.inbox)
    && t == s.(inbox := t.inbox, queue := Rest(s.queue), quit := true)
  }

  ghost predicate Step(c: Link, s: System, t: System)
    requires c.Valid()
  {
    || RechunkStep(c, s, t)
    || QuitStep(c, s, t)
    || (exists d: seq<byte>, n: nat, flags: Flags, time: int, seqno: int,
               data: seq<seq<byte>>, pieces: seq<seq<byte>> ::
          WriteStep(c, s, t, d, n, flags, time, seqno, data, pieces))
    || (exists h: Handled :: HandleStep(c, s, t, h))
  }

  /** The samples of the datagrams taken in. */
  ghost function TakenIn(l: Layout, log: seq<Handled>): (r: seq<seq<byte>>)
    requires l.Valid() && ValidLog(l, log)
    ensures |r| == l.numChans
  {
    if log == [] then NoData(l.numChans) else Appended(TakenIn(l, log[..|log| - 1]), Payload(l, log[|log| - 1].d))
  }

  /** The samples of one datagram that the device accepted. */
  ghost function AcceptedOf(l: Layout, h: Handled): (r: seq<seq<byte>>)
    requires l.Valid() && h.Valid(l)
    ensures |r| == l.numChans
  {
    HandledDelivers(l, h);
    Pieces(l.elemSize, l.numChans, h.Written(l).calls)
  }

  /** All samples that the device accepted. */
  ghost function Accepted(l: Layout, log: seq<Handled>): (r: seq<seq<byte>>)
    requires l.Valid() && ValidLog(l, log)
    ensures |r| == l.numChans
  {
    if log == [] then NoData(l.numChans) else Appended(Accepted(l, log[..|log| - 1]), AcceptedOf(l, log[|log| - 1]))
  }

  lemma HandledDelivers(l: Layout, h: Handled)
    requires l.Valid() && h.Valid(l)
    ensures var w := h.Written(l);
            && OffersSized(l.elemSize, l.numChans, w.calls)
            && |w.rest| == l.numChans && Sized(l.elemSize, w.rest, w.left)
            && Appended(Pieces(l.elemSize, l.numChans, w.calls), w.rest) == Payload(l, h.d)
            && (w.left == 0 || w.end != AllWritten)
  {
    var e := Decode(h.d);
    WritesDeliver(l.elemSize, h.script, h.stop, Channels(l, h.d, e.elems), e.elems, e.flags, e.time);
  }

  /** The time of a datagram is passed to no write after the first accepted one. */
  ghost predicate Timed(l: Layout, h: Handled)
    requires l.Valid() && h.Valid(l)
  {
    TimedOnce(h.Written(l).calls, Decode(h.d).flags, Decode(h.d).time)
  }

  lemma HandledTimed(l: Layout, h: Handled)
    requires l.Valid() && h.Valid(l)
    ensures Timed(l, h)
  {
    var e := Decode(h.d);
    TimeOnlyOnce(l.elemSize, h.script, h.stop, Channels(l, h.d, e.elems), e.elems, e.flags, e.time);
  }

  /** What was sent is what was taken in and what is under way, in that order. */
  ghost predicate Balanced(c: Link, s: System)
    requires c.l.Valid() && AllWellFormed(c.l, s.queue)
  {
    ValidLog(c.l, s.log) && s.sent == Appended(TakenIn(c.l, s.log), InTransit(c.l, s.queue))
  }

  ghost predicate Inv(c: Link, s: System)
    requires c.Valid()
  {
    && AllWellFormed(c.l, s.queue) && Transported(c, s.inbox, s.queue) && Balanced(c, s)
    && !s.quit && forall k :: 0 <= k < |s.queue| ==> Decode(s.queue[k]).elems >= 0
  }

  lemma WriteKeeps(c: Link, s: System, t: System, d: seq<byte>, n: nat, flags: Flags, time: int, seqno: int,
                   data: seq<seq<byte>>, pieces: seq<seq<byte>>)
    requires c.Valid() && c.WholePackets() && Inv(c, s)
    requires WriteStep(c, s, t, d, n, flags, time, seqno, data, pieces)
    ensures Inv(c, t)
  {
    DatagramPayload(c.l, d, n, flags, time, seqno, data);
    InTransitAppend(c.l, s.queue, d);
    SendTransports(c, s.inbox, s.queue, d, pieces);
    AppendedTwice(TakenIn(c.l, s.log), InTransit(c.l, s.queue), data);
  }

  /** The worker never quits. */
  lemma NeverQuits(c: Link, s: System, t: System)
    requires c.Valid() && Inv(c, s)
    ensures !QuitStep(c, s, t)
  {
    FrontArrives(c, s.inbox, s.queue);
    NotArrived(c);
  }

  lemma HandleKeeps(c: Link, s: System, t: System, h: Handled)
    requires c.Valid() && Inv(c, s) && HandleStep(c, s, t, h)
    ensures Inv(c, t)
  {
    hide Arrived, Incoming, Consumed, WellFormed, Transported, Handled.Written, Decode, Flatten;
    FrontArrives(c, s.inbox, s.queue);
    NotArrived(c);
    AfterFront(c, s.inbox, s.queue, t.inbox);
    assert t.log[..|s.log|] == s.log;
    AppendedTwice(TakenIn(c.l, s.log), Payload(c.l, h.d), InTransit(c.l, t.queue));
  }

  lemma NotArrived(c: Link)
    requires c.Valid()
    ensures !Arrived(c.l, c.datagram, [])
  {
  }

  lemma StepKeeps(c: Link, s: System, t: System)
    requires c.Valid() && c.WholePackets() && Inv(c, s) && Step(c, s, t)
    ensures Inv(c, t)
  {
    hide WriteStep, HandleStep, QuitStep;
    NeverQuits(c, s, t);
    if RechunkStep(c, s, t) {
    } else if exists h: Handled :: HandleStep(c, s, t, h) {
      var h: Handled :| HandleStep(c, s, t, h);
      HandleKeeps(c, s, t, h);
    } else {
      var d: seq<byte>, n: nat, flags: Flags, time: int, seqno: int, data: seq<seq<byte>>, pieces: seq<seq<byte>> :|
        WriteStep(c, s, t, d, n, flags, time, seqno, data, pieces);
      WriteKeeps(c, s, t, d, n, flags, time, seqno, data, pieces);
    }
  }

  ghost predicate IsRun(c: Link, run: seq<System>)
    requires c.Valid()
  {
    run != [] && Init(c, run[0]) && forall j, k :: 0 <= j < k < |run| && k - j == 1 ==> Step(c, run[j], run[k])
  }

  lemma InitHolds(c: Link, s: System)
    requires c.Valid() && Init(c, s)
    ensures Inv(c, s)
  {
    AppendNothing(NoData(c.l.numChans));
  }

  lemma {:induction false} RunKeeps(c: Link, run: seq<System>)
    requires c.Valid() && c.WholePackets() && IsRun(c, run)
    ensures Inv(c, run[|run| - 1])
    decreases |run|
  {
    hide Step, Inv, Init;
    if |run| == 1 {
      InitHolds(c, run[0]);
    } else {
      RunKeeps(c, run[..|run| - 1]);
      StepKeeps(c, run[|run| - 2], run[|run| - 1]);
    }
  }

  /** Elements that were taken in and not accepted. */
  ghost function Refused(l: Layout, log: seq<Handled>): nat
    requires l.Valid() && ValidLog(l, log)
  {
    if log == [] then 0 else Refused(l, log[..|log| - 1]) + log[|log| - 1].Written(l).left
  }

  /** For every channel, the device accepted all but the refused elements. */
  lemma {:induction false} AcceptedLength(l: Layout, log: seq<Handled>, i: nat)
    requires l.Valid() && ValidLog(l, log) && i < l.numChans
    ensures |TakenIn(l, log)[i]| == |Accepted(l, log)[i]| + Refused(l, log) * l.elemSize
  {
    hide Handled.Written, Handled.Valid, AcceptedOf, Payload, WellFormed;
    if log != [] {
      var h := log[|log| - 1];
      AcceptedLength(l, log[..|log| - 1], i);
      OneLength(l, h, i);
      Distribute(l.elemSize, Refused(l, log[..|log| - 1]), h.Written(l).left);
    }
  }

  lemma OneLength(l: Layout, h: Handled, i: nat)
    requires l.Valid() && h.Valid(l) && i < l.numChans
    ensures |Payload(l, h.d)[i]| == |AcceptedOf(l, h)[i]| + h.Written(l).left * l.elemSize
  {
    HandledDelivers(l, h);
    hide Handled.Written, Payload, Pieces;
  }

  lemma {:induction false} NothingRefused(l: Layout, log: seq<Handled>)
    requires l.Valid() && ValidLog(l, log) && Refused(l, log) == 0
    ensures Accepted(l, log) == TakenIn(l, log)
  {
    if log != [] {
      var h := log[|log| - 1];
      NothingRefused(l, log[..|log| - 1]);
      HandledDelivers(l, h);
      AllAccepted(l, h);
    }
  }

  lemma AllAccepted(l: Layout, h: Handled)
    requires l.Valid() && h.Valid(l) && h.Written(l).left == 0
    ensures AcceptedOf(l, h) == Payload(l, h.d)
  {
    HandledDelivers(l, h);
    var w := h.Written(l);
    assert w.rest == NoData(l.numChans);
    AppendNothing(AcceptedOf(l, h));
  }

  /** Transmission conserves samples, if no datagram is cut up into packets: on every run, for every channel, what the
      application's calls passed on is what the worker took in followed by what is under way, in order, and the worker
      does not quit; and the device accepted of each datagram a front part, without the datagram's time after the first
      piece of it. It accepted all that was taken in exactly when no datagram's writes ended with elements left over. */
  lemma TransmissionConserves(c: Link, run: seq<System>, i: nat)
    requires c.Valid() && c.WholePackets() && IsRun(c, run) && i < c.l.numChans
    ensures var s := run[|run| - 1];
            && !s.quit && AllWellFormed(c.l, s.queue) && Balanced(c, s)
            && (forall k :: 0 <= k < |s.log| ==> AcceptedOf(c.l, s.log[k])[i] <= Payload(c.l, s.log[k].d)[i])
            && (forall k :: 0 <= k < |s.log| ==> Timed(c.l, s.log[k]))
            && (Accepted(c.l, s.log) == TakenIn(c.l, s.log) <==> Refused(c.l, s.log) == 0)
  {
    RunKeeps(c, run);
    var s := run[|run| - 1];
    forall k | 0 <= k < |s.log|
      ensures AcceptedOf(c.l, s.log[k])[i] <= Payload(c.l, s.log[k].d)[i] && Timed(c.l, s.log[k])
    {
      HandledDelivers(c.l, s.log[k]);
      HandledTimed(c.l, s.log[k]);
    }
    AcceptedLength(c.l, s.log, 0);
    if Refused(c.l, s.log) == 0 {
      NothingRefused(c.l, s.log);
    } else {
      MulMonotone(1, Refused(c.l, s.log), c.l.elemSize);
    }
  }

  /** Nothing is lost, repeated or reordered between the application and the worker. */
  ghost predicate Conserved(c: Link, s: System)
    requires c.Valid()
  {
    AllWellFormed(c.l, s.queue) && Balanced(c, s)
  }

  /** A datagram that is cut up into packets makes the worker quit: a run that loses a full datagram. */
  lemma QuittingRun(c: Link) returns (run: seq<System>)
    requires c.Valid() && !c.WholePackets()
    ensures IsRun(c, run) && !Conserved(c, run[|run| - 1]) && run[|run| - 1].quit
  {
    hide Decode, Encode, Packets, WellFormed, WriteStep, Layout.BuffSize, Layout.Bytes, HoldsChannels, FullDatagram;
    var l, d := c.l, FullDatagram(c.l);
    var data := Zeros(l, l.BuffSize() * l.elemSize);
    BufferNotEmpty(c);
    FullHoldsZeros(l);
    FullHeader(l);
    FullIsWellFormed(l);
    PacketsJoin(d);
    LongDatagramRefused(c, d, []);
    assert Packets(d) + [] == Packets(d) && [] + Packets(d) == Packets(d) && [] + [d] == [d];
    PrependNothing(data);
    var s0 := System([], [], NoData(l.numChans), [], false);
    var s1 := System(Packets(d), [d], data, [], false);
    var s2 := System(Packets(d)[1..], [], data, [], true);
    WritesJumbo(c, s0, s1, d, data);
    assert Step(c, s1, s2) by {
      assert QuitStep(c, s1, s2);
    }
    run := [s0, s1, s2];
    assert IsRun(c, run) by {
      hide Step;
      assert Init(c, s0);
    }
    MulMonotone(1, l.BuffSize(), l.elemSize);
    assert |data[0]| > 0;
  }

  lemma WritesJumbo(c: Link, s: System, t: System, d: seq<byte>, data: seq<seq<byte>>)
    requires c.Valid() && IsDatagram(c.l, d, c.l.BuffSize(), NO_FLAGS, 0, 0, data)
    requires Flatten(Packets(d)) == d && NonEmptyPieces(Packets(d)) && |s.sent| == |data|
    requires t == s.(inbox := s.inbox + Packets(d), queue := s.queue + [d], sent := Appended(s.sent, data))
    ensures Step(c, s, t)
  {
    hide IsDatagram, Step;
    WriteIsStep(c, s, d, c.l.BuffSize(), NO_FLAGS, 0, 0, data, Packets(d));
  }

  /** Transmission conserves samples on every run exactly when no datagram is cut up into packets. */
  lemma TransmissionExactly(c: Link)
    requires c.Valid()
    ensures (forall run :: IsRun(c, run) ==> Conserved(c, run[|run| - 1])) <==> c.WholePackets()
  {
    hide Init, Step, Conserved, Inv;
    if c.WholePackets() {
      forall run | IsRun(c, run) ensures Conserved(c, run[|run| - 1]) {
        RunConserves(c, run);
      }
    } else {
      var run := QuittingRun(c);
    }
  }

  lemma RunConserves(c: Link, run: seq<System>)
    requires c.Valid() && c.WholePackets() && IsRun(c, run)
    ensures Conserved(c, run[|run| - 1])
  {
    RunKeeps(c, run);
  }
}
