/** Reception as a whole: the server's send worker, a lossless transport and the client's readStream. */
module Reception {
  import opened Arithmetic
  import opened Bytes
  import opened Sequences
  import opened Sockets
  import opened FlowControl
  import opened BufferLayout
  import opened Datagrams
  import opened DeviceStream
  import opened StreamFlags
  import opened StreamEndpoint
  import opened ServerSendWorker
  import opened ClientStream
  import opened ClientConvert

  /** inbox is what the transport will deliver to the client, queue the datagrams this stands for; passes are those
      the worker made, delivered is what the application got and converted the same as CS16 words. */
  datatype System = System(inbox: seq<seq<byte>>, queue: seq<seq<byte>>, pending: seq<seq<byte>>, left: nat,
                           passes: seq<Pass>, delivered: seq<seq<byte>>, converted: seq<seq<bv16>>)

  ghost predicate Init(c: Link, s: System)
    requires c.Valid()
  {
    && s.inbox == [] && s.queue == [] && s.left == 0 && s.passes == []
    && s.pending == s.delivered == NoData(c.l.numChans)
    && s.converted == seq(c.l.numChans, _ => [])
  }

  /** The worker makes a pass and sends its datagram, in any pieces the transport likes. */
  ghost predicate SendStep(c: Link, s: System, t: System, mtuElems: nat, p: Pass, d: seq<byte>, seqno: int,
                           pieces: seq<seq<byte>>)
    requires c.Valid()
  {
    && IsPass(c.l, mtuElems, p) && Carries(c.l, d, p, seqno) && SentAs(c, d, pieces)
    && t == s.(inbox := s.inbox + pieces, queue := s.queue + [d], passes := s.passes + [p])
  }

  /** A pass of the worker is such a step: what its contract says of the datagram and the pieces is what it needs. */
  lemma PassIsStep(c: Link, s: System, mtuElems: nat, p: Pass, d: seq<byte>, seqno: int, pieces: seq<seq<byte>>)
    requires c.Valid() && IsPass(c.l, mtuElems, p) && Carries(c.l, d, p, seqno) && SentAs(c, d, pieces)
    ensures Step(c, s, s.(inbox := s.inbox + pieces, queue := s.queue + [d], passes := s.passes + [p]))
  {
    hide IsPass, Carries, SentAs;
    var t := s.(inbox := s.inbox + pieces, queue := s.queue + [d], passes := s.passes + [p]);
    assert SendStep(c, s, t, mtuElems, p, d, seqno, pieces);
  }

  /** A stream may be cut up differently at any time. */
  ghost predicate RechunkStep(c: Link, s: System, t: System) {
    Rechunked(c, s.inbox, t.inbox) && t == s.(inbox := t.inbox)
  }

  /** The application calls readStream for up to n elements. */
  ghost predicate ReadStep(c: Link, s: System, t: System, n: nat, ret: int, out: seq<seq<byte>>)
    requires c.Valid()
  {
    && ReadCall(c.l, c.datagram, s.inbox, s.pending, s.left, n, ret, out, t.inbox, t.pending, t.left)
    && |out| == |s.delivered| == |s.converted|
    && t == System(t.inbox, if s.left > 0 || s.inbox == [] then s.queue else Rest(s.queue), t.pending, t.left,
                   s.passes, Appended(s.delivered, out),
                   seq(|out|, i requires 0 <= i < |out| => s.converted[i] + Unpacked(Octets(out[i]))))
  }

  ghost predicate Step(c: Link, s: System, t: System)
    requires c.Valid()
  {
    || RechunkStep(c, s, t)
    || (exists mtuElems: nat, p: Pass, d: seq<byte>, seqno: int, pieces: seq<seq<byte>> ::
          SendStep(c, s, t, mtuElems, p, d, seqno, pieces))
    || (exists n: nat, ret: int, out: seq<seq<byte>> :: ReadStep(c, s, t, n, ret, out))
  }

  // ---------- what passes read, forward and lose ----------

  /** The passes answer for as many channels as the layout has. */
  ghost predicate Wide(l: Layout, passes: seq<Pass>) {
    forall k :: 0 <= k < |passes| ==> WidePass(l, passes[k])
  }

  ghost predicate WidePass(l: Layout, p: Pass) {
    p.first.Valid(l) && p.second.Valid(l) && (p.ret < 0 ==> p.second.Count() == 0)
  }

  /** Everything the device delivered. */
  ghost function Produced(l: Layout, passes: seq<Pass>): (r: seq<seq<byte>>)
    requires Wide(l, passes)
    ensures |r| == l.numChans
  {
    if passes == [] then NoData(l.numChans)
    else Appended(Produced(l, passes[..|passes| - 1]), passes[|passes| - 1].Read(l.numChans))
  }

  /** What the datagrams carry of it. */
  ghost function Forwarded(l: Layout, passes: seq<Pass>): (r: seq<seq<byte>>)
    requires Wide(l, passes)
    ensures |r| == l.numChans
  {
    if passes == [] then NoData(l.numChans)
    else Appended(Forwarded(l, passes[..|passes| - 1]), passes[|passes| - 1].Forwarded(l.numChans))
  }

  ghost function LostElems(passes: seq<Pass>): nat {
    if passes == [] then 0 else LostElems(passes[..|passes| - 1]) + Lost(passes[|passes| - 1])
  }

  lemma OneMore(l: Layout, passes: seq<Pass>, p: Pass)
    requires Wide(l, passes) && WidePass(l, p)
    ensures Wide(l, passes + [p])
    ensures |p.first.Data(l.numChans)| == |p.second.Data(l.numChans)| == l.numChans
    ensures |p.Read(l.numChans)| == |p.Forwarded(l.numChans)| == l.numChans
    ensures Produced(l, passes + [p]) == Appended(Produced(l, passes), p.Read(l.numChans))
    ensures Forwarded(l, passes + [p]) == Appended(Forwarded(l, passes), p.Forwarded(l.numChans))
  {
    assert (passes + [p])[..|passes|] == passes;
  }

  lemma {:induction false} ProducedLength(l: Layout, passes: seq<Pass>, i: nat)
    requires l.Valid() && Wide(l, passes) && i < l.numChans
    ensures |Produced(l, passes)[i]| == |Forwarded(l, passes)[i]| + LostElems(passes) * l.elemSize
  {
    hide Layout.Valid, WidePass, Pass.Read, Pass.Forwarded, Lost;
    if passes != [] {
      var front, p := passes[..|passes| - 1], passes[|passes| - 1];
      ProducedLength(l, front, i);
      WideElements(l, p);
      Distribute(l.elemSize, LostElems(front), Lost(p));
      assert |Produced(l, passes)[i]| == |Produced(l, front)[i]| + |p.Read(l.numChans)[i]|;
      assert |Forwarded(l, passes)[i]| == |Forwarded(l, front)[i]| + |p.Forwarded(l.numChans)[i]|;
    }
  }

  lemma WideElements(l: Layout, p: Pass)
    requires l.Valid() && WidePass(l, p)
    ensures |p.first.Data(l.numChans)| == |p.second.Data(l.numChans)| == l.numChans
    ensures |p.Read(l.numChans)| == |p.Forwarded(l.numChans)| == l.numChans
    ensures forall i :: 0 <= i < l.numChans ==>
              |p.Read(l.numChans)[i]| == |p.Forwarded(l.numChans)[i]| + Lost(p) * l.elemSize
    ensures Lost(p) == 0 ==> p.Read(l.numChans) == p.Forwarded(l.numChans)
  {
    LostElements(l, p);
    if p.ret < 0 && Lost(p) == 0 {
      assert p.Read(l.numChans) == NoData(l.numChans);
    }
  }

  lemma {:induction false} NothingLost(l: Layout, passes: seq<Pass>)
    requires l.Valid() && Wide(l, passes) && LostElems(passes) == 0
    ensures forall k :: 0 <= k < |passes| ==> Lost(passes[k]) == 0
    ensures Produced(l, passes) == Forwarded(l, passes)
  {
    hide WidePass, Pass.Read, Pass.Forwarded, Lost;
    if passes != [] {
      var p := passes[|passes| - 1];
      NothingLost(l, passes[..|passes| - 1]);
      WideElements(l, p);
    }
  }

  lemma {:induction false} SomethingLost(passes: seq<Pass>)
    requires forall k :: 0 <= k < |passes| ==> Lost(passes[k]) == 0
    ensures LostElems(passes) == 0
  {
    if passes != [] {
      SomethingLost(passes[..|passes| - 1]);
    }
  }

  /** All that the device delivered is forwarded exactly when no pass loses anything. */
  lemma AllForwarded(l: Layout, passes: seq<Pass>)
    requires l.Valid() && Wide(l, passes)
    ensures Produced(l, passes) == Forwarded(l, passes) <==> forall k :: 0 <= k < |passes| ==> Lost(passes[k]) == 0
  {
    ProducedLength(l, passes, 0);
    if LostElems(passes) == 0 {
      NothingLost(l, passes);
    } else {
      MulMonotone(1, LostElems(passes), l.elemSize);
      if forall k :: 0 <= k < |passes| ==> Lost(passes[k]) == 0 {
        SomethingLost(passes);
      }
    }
  }

  /** A pass the worker can make answers for all channels, and loses something exactly when it is lossy. */
  lemma PassIsWide(l: Layout, mtuElems: nat, p: Pass)
    requires l.Valid() && IsPass(l, mtuElems, p)
    ensures WidePass(l, p) && (Lossy(l, p) <==> Lost(p) > 0)
  {
    hide Lossy, Lost, SecondReadFails;
    var script: seq<Reply>, stop: seq<bool>, flags: Flags, time: int :|
      ValidScript(l, script) && p == WorkerPass(l, mtuElems, script, stop, flags, time);
    PassLoses(l, mtuElems, script, stop, flags, time);
  }

  lemma CarriedWellFormed(l: Layout, d: seq<byte>, p: Pass, seqno: int)
    requires l.Valid() && p.ret <= l.BuffSize() && Carries(l, d, p, seqno)
    ensures Decode(d).elems == p.ret && WellFormed(l, d)
  {
  }

  /** The datagram of a pass is well formed, and its payload is what the pass forwards. */
  lemma CarriedPayload(l: Layout, d: seq<byte>, p: Pass, seqno: int)
    requires l.Valid() && p.ret <= l.BuffSize() && Carries(l, d, p, seqno)
    ensures WellFormed(l, d) && Payload(l, d) == p.Forwarded(l.numChans)
  {
    CarriedWellFormed(l, d, p, seqno);
    if p.ret >= 0 {
      HeldChannels(l, d, p.ret, p.Read(l.numChans));
    }
  }

  lemma PassFits(l: Layout, mtuElems: nat, p: Pass)
    requires l.Valid() && IsPass(l, mtuElems, p)
    ensures p.ret <= l.BuffSize()
  {
  }

  // ---------- The invariant ----------

  /** What the passes forwarded is what was delivered, what is left at the client and what is under way, in that
      order. */
  ghost predicate Balanced(c: Link, s: System)
    requires c.l.Valid() && AllWellFormed(c.l, s.queue)
  {
    && |s.delivered| == |s.pending| == |s.converted| == c.l.numChans && Wide(c.l, s.passes)
    && Forwarded(c.l, s.passes) == Appended(s.delivered, Appended(s.pending, InTransit(c.l, s.queue)))
  }

  ghost predicate Inv(c: Link, s: System)
    requires c.Valid()
  {
    && AllWellFormed(c.l, s.queue)
    && Transported(c, s.inbox, s.queue)
    && Balanced(c, s)
    && (forall i :: 0 <= i < |s.pending| ==> |s.pending[i]| == s.left * c.l.elemSize)
    && (forall k :: 0 <= k < |s.passes| ==> (Lossy(c.l, s.passes[k]) <==> Lost(s.passes[k]) > 0))
    && (c.l.elemSize == 3 ==> forall i :: 0 <= i < c.l.numChans ==>
          |s.delivered[i]| % 3 == 0 && s.converted[i] == Unpacked(Octets(s.delivered[i])))
  }

  lemma SendKeeps(c: Link, s: System, t: System, mtuElems: nat, p: Pass, d: seq<byte>, seqno: int,
                  pieces: seq<seq<byte>>)
    requires c.Valid() && c.WholePackets() && Inv(c, s) && SendStep(c, s, t, mtuElems, p, d, seqno, pieces)
    ensures Inv(c, t)
  {
    hide IsPass, Carries, WellFormed, InTransit, Transported, SentAs, WidePass, Forwarded, Lossy, Lost, Payload,
         Pass.Forwarded, Pass.Read, Appended, Decode, Unpacked;
    PassFits(c.l, mtuElems, p);
    PassIsWide(c.l, mtuElems, p);
    CarriedPayload(c.l, d, p, seqno);
    InTransitAppend(c.l, s.queue, d);
    SendTransports(c, s.inbox, s.queue, d, pieces);
    OneMore(c.l, s.passes, p);
    var x, y := InTransit(c.l, s.queue), p.Forwarded(c.l.numChans);
    AppendedTwice(s.pending, x, y);
    AppendedTwice(s.delivered, Appended(s.pending, x), y);
  }

  /** Front and rest of a fragment put together again. */
  lemma FragmentJoins(l: Layout, whole: seq<seq<byte>>, total: nat, n: nat, ret: int, out: seq<seq<byte>>,
                      left: seq<seq<byte>>, elemsLeft: nat)
    requires Fragment(l, whole, total, n, ret, out, left, elemsLeft)
    requires forall i :: 0 <= i < |whole| ==> |whole[i]| == total * l.elemSize
    ensures |out| == |left| == |whole| && Appended(out, left) == whole
    ensures forall i :: 0 <= i < |out| ==> |out[i]| == ret * l.elemSize
    ensures forall i :: 0 <= i < |left| ==> |left[i]| == elemsLeft * l.elemSize
  {
    FragmentBytes(l.elemSize, total, ret);
    forall i | 0 <= i < |whole| ensures out[i] + left[i] == whole[i] {
      assert out[i] == whole[i][..ret * l.elemSize] && left[i] == whole[i][ret * l.elemSize..];
    }
  }

  lemma OctetsAppend(a: seq<byte>, b: seq<byte>)
    requires |a| % 3 == 0
    ensures Unpacked(Octets(a + b)) == Unpacked(Octets(a)) + Unpacked(Octets(b))
  {
    assert Octets(a + b) == Octets(a) + Octets(b);
    UnpackedAppend(Octets(a), Octets(b));
  }

  /** What a read of the current datagram hands out comes off its rest. */
  lemma ReadOnMoves(c: Link, s: System, t: System, n: nat, ret: int, out: seq<seq<byte>>)
    requires c.Valid() && Inv(c, s) && ReadStep(c, s, t, n, ret, out) && s.left > 0
    ensures Moves(c, s, t, out)
  {
    FragmentJoins(c.l, s.pending, s.left, n, ret, out, t.pending, t.left);
    WholeSamples(c.l, out, ret);
    AppendedTwice(out, t.pending, InTransit(c.l, s.queue));
  }

  lemma ReadNothingMoves(c: Link, s: System, t: System, n: nat, ret: int, out: seq<seq<byte>>)
    requires c.Valid() && Inv(c, s) && ReadStep(c, s, t, n, ret, out) && s.left == 0 && s.inbox == []
    ensures Moves(c, s, t, out)
  {
    EmptyPending(c.l, s.pending);
    PrependNothing(Appended(t.pending, InTransit(c.l, s.queue)));
  }

  /** What a read of the next datagram hands out is the front of its payload, and the client keeps the rest. */
  lemma FreshPayload(l: Layout, d: seq<byte>, n: nat, ret: int, out: seq<seq<byte>>, pending: seq<seq<byte>>, left: nat)
    requires l.Valid() && WellFormed(l, d)
    requires var elems := Decode(d).elems;
             if elems < 0 then out == NoData(l.numChans) && pending == NoData(l.numChans) && left == 0
             else Fragment(l, Channels(l, d, elems), elems, n, ret, out, pending, left)
    ensures |out| == |pending| == l.numChans && Appended(out, pending) == Payload(l, d)
    ensures forall i :: 0 <= i < |pending| ==> |pending[i]| == left * l.elemSize
    ensures l.elemSize == 3 ==> forall i :: 0 <= i < |out| ==> |out[i]| % 3 == 0
  {
    var elems := Decode(d).elems;
    if elems < 0 {
      AppendNothing(out);
    } else {
      FragmentJoins(l, Channels(l, d, elems), elems, n, ret, out, pending, left);
      WholeSamples(l, out, ret);
    }
  }

  lemma ReadNextMoves(c: Link, s: System, t: System, n: nat, ret: int, out: seq<seq<byte>>)
    requires c.Valid() && Inv(c, s) && ReadStep(c, s, t, n, ret, out) && s.left == 0 && s.inbox != []
    ensures Moves(c, s, t, out)
  {
    FrontArrives(c, s.inbox, s.queue);
    AfterFront(c, s.inbox, s.queue, t.inbox);
    FreshPayload(c.l, s.queue[0], n, ret, out, t.pending, t.left);
    EmptyPending(c.l, s.pending);
    PrependNothing(InTransit(c.l, s.queue));
    AppendedTwice(out, t.pending, InTransit(c.l, s.queue[1..]));
  }

  /** The samples out went from the client's rest, or from the transport, to the application. */
  ghost predicate Moves(c: Link, s: System, t: System, out: seq<seq<byte>>)
    requires c.Valid() && AllWellFormed(c.l, s.queue) && |s.pending| == c.l.numChans
  {
    && AllWellFormed(c.l, t.queue) && Transported(c, t.inbox, t.queue)
    && |out| == |t.pending| == c.l.numChans
    && (forall i :: 0 <= i < |t.pending| ==> |t.pending[i]| == t.left * c.l.elemSize)
    && (c.l.elemSize == 3 ==> forall i :: 0 <= i < |out| ==> |out[i]| % 3 == 0)
    && Appended(s.pending, InTransit(c.l, s.queue)) == Appended(out, Appended(t.pending, InTransit(c.l, t.queue)))
  }

  lemma ReadMoves(c: Link, s: System, t: System, n: nat, ret: int, out: seq<seq<byte>>)
    requires c.Valid() && Inv(c, s) && ReadStep(c, s, t, n, ret, out)
    ensures Moves(c, s, t, out)
  {
    if s.left > 0 {
      ReadOnMoves(c, s, t, n, ret, out);
    } else if s.inbox == [] {
      ReadNothingMoves(c, s, t, n, ret, out);
    } else {
      ReadNextMoves(c, s, t, n, ret, out);
    }
  }

  lemma EmptyPending(l: Layout, pending: seq<seq<byte>>)
    requires |pending| == l.numChans && forall i :: 0 <= i < |pending| ==> |pending[i]| == 0 * l.elemSize
    ensures pending == NoData(l.numChans)
  {
  }

  lemma WholeSamples(l: Layout, out: seq<seq<byte>>, n: nat)
    requires forall i :: 0 <= i < |out| ==> |out[i]| == n * l.elemSize
    ensures l.elemSize == 3 ==> forall i :: 0 <= i < |out| ==> |out[i]| % 3 == 0
  {
  }

  lemma ReadKeeps(c: Link, s: System, t: System, n: nat, ret: int, out: seq<seq<byte>>)
    requires c.Valid() && Inv(c, s) && ReadStep(c, s, t, n, ret, out)
    ensures Inv(c, t)
  {
    hide WellFormed, Transported, InTransit, ReadCall, Payload, Unpacked;
    ReadMoves(c, s, t, n, ret, out);
    AppendedTwice(s.delivered, out, Appended(t.pending, InTransit(c.l, t.queue)));
    if c.l.elemSize == 3 {
      forall i | 0 <= i < c.l.numChans
        ensures |t.delivered[i]| % 3 == 0 && t.converted[i] == Unpacked(Octets(t.delivered[i]))
      {
        OctetsAppend(s.delivered[i], out[i]);
      }
    }
  }

  lemma StepKeeps(c: Link, s: System, t: System)
    requires c.Valid() && c.WholePackets() && Inv(c, s) && Step(c, s, t)
    ensures Inv(c, t)
  {
    if RechunkStep(c, s, t) {
    } else if exists mtuElems: nat, p: Pass, d: seq<byte>, seqno: int, pieces: seq<seq<byte>> ::
                SendStep(c, s, t, mtuElems, p, d, seqno, pieces) {
      var mtuElems: nat, p: Pass, d: seq<byte>, seqno: int, pieces: seq<seq<byte>> :|
        SendStep(c, s, t, mtuElems, p, d, seqno, pieces);
      SendKeeps(c, s, t, mtuElems, p, d, seqno, pieces);
    } else {
      var n: nat, ret: int, out: seq<seq<byte>> :| ReadStep(c, s, t, n, ret, out);
      ReadKeeps(c, s, t, n, ret, out);
    }
  }

  ghost predicate IsRun(c: Link, run: seq<System>)
    requires c.Valid()
  {
    run != [] && Init(c, run[0]) && forall j, k :: 0 <= j < k < |run| && k - j == 1 ==> Step(c, run[j], run[k])
  }

  lemma InitHolds(c: Link, s: System)
    requires c.Valid() && Init(c, s)
    ensures Inv(c, s)
  {
    var nothing := NoData(c.l.numChans);
    AppendNothing(nothing);
    assert Octets([]) == [];
    assert Forwarded(c.l, s.passes) == nothing;
  }

  lemma {:induction false} RunKeeps(c: Link, run: seq<System>)
    requires c.Valid() && c.WholePackets() && IsRun(c, run)
    ensures Inv(c, run[|run| - 1])
    decreases |run|
  {
    hide Step, Inv, Init;
    if |run| == 1 {
      InitHolds(c, run[0]);
    } else {
      RunKeeps(c, run[..|run| - 1]);
      StepKeeps(c, run[|run| - 2], run[|run| - 1]);
    }
  }

  /** Reception conserves samples, if no datagram is cut up into packets: on every run, for every channel, what the
      application has got is the front of what the worker's passes forwarded, in order, without gap or duplicate; the
      remainder is what is left of the client's current datagram followed by what is under way. That is all that the
      device delivered exactly when no pass was lossy. With a packed 12-bit wire format the same holds of the converted
      words, however the reads cut the datagrams into fragments. */
  lemma ReceptionConserves(c: Link, run: seq<System>, i: nat)
    requires c.Valid() && c.WholePackets() && IsRun(c, run) && i < c.l.numChans
    ensures var s := run[|run| - 1];
            && AllWellFormed(c.l, s.queue) && Balanced(c, s)
            && s.delivered[i] <= Forwarded(c.l, s.passes)[i]
            && (c.l.elemSize == 3 ==> s.converted[i] <= Unpacked(Octets(Forwarded(c.l, s.passes)[i])))
            && (Forwarded(c.l, s.passes) == Produced(c.l, s.passes) <==>
                  forall k :: 0 <= k < |s.passes| ==> !Lossy(c.l, s.passes[k]))
  {
    RunKeeps(c, run);
    var s := run[|run| - 1];
    AllForwarded(c.l, s.passes);
    hide IsRun, Lossy, Lost, Wide, Produced, Forwarded, InTransit;
    if c.l.elemSize == 3 {
      OctetsAppend(s.delivered[i], s.pending[i] + InTransit(c.l, s.queue)[i]);
    }
  }

  /** Nothing is lost, repeated or reordered between the worker and the application. */
  ghost predicate Conserved(c: Link, s: System)
    requires c.Valid()
  {
    AllWellFormed(c.l, s.queue) && Balanced(c, s)
  }

  /** A datagram that is cut up into packets is refused by the client: a run that loses a full datagram. */
  lemma LosingRun(c: Link) returns (run: seq<System>)
    requires c.Valid() && !c.WholePackets()
    ensures IsRun(c, run) && !Conserved(c, run[|run| - 1])
  {
    hide Step, Init, Conserved;
    BufferNotEmpty(c);
    var p := FullPass(c.l);
    var s0, s1, s2 := Nothing(c.l), JumboUnderWay(c.l, p), JumboRefused(c.l, p);
    SendsJumbo(c, p);
    RefusesJumbo(c, p);
    StartsEmpty(c);
    JumboIsGone(c, p);
    run := [s0, s1, s2];
  }

  function Nothing(l: Layout): System {
    System([], [], NoData(l.numChans), 0, [], NoData(l.numChans), seq(l.numChans, _ => []))
  }

  /** After a pass that filled a datagram. */
  function JumboUnderWay(l: Layout, p: Pass): System
    requires l.Valid()
  {
    Nothing(l).(inbox := Packets(FullDatagram(l)), queue := [FullDatagram(l)], passes := [p])
  }

  /** And after the client was offered its first packet. */
  function JumboRefused(l: Layout, p: Pass): System
    requires l.Valid()
  {
    Nothing(l).(inbox := Rest(Packets(FullDatagram(l))), passes := [p])
  }

  lemma StartsEmpty(c: Link)
    requires c.Valid()
    ensures Init(c, Nothing(c.l))
  {
  }

  lemma SendsJumbo(c: Link, p: Pass)
    requires c.Valid() && IsPass(c.l, c.l.BuffSize(), p) && Carries(c.l, FullDatagram(c.l), p, 0)
    ensures Step(c, Nothing(c.l), JumboUnderWay(c.l, p))
  {
    hide IsPass, Carries, Step, FullDatagram, Packets;
    var d := FullDatagram(c.l);
    PacketsJoin(d);
    PassIsStep(c, Nothing(c.l), c.l.BuffSize(), p, d, 0, Packets(d));
    assert [] + Packets(d) == Packets(d) && [] + [d] == [d] && [] + [p] == [p];
  }

  lemma RefusesJumbo(c: Link, p: Pass)
    requires c.Valid() && !c.WholePackets()
    ensures Step(c, JumboUnderWay(c.l, p), JumboRefused(c.l, p))
  {
    hide Decode, Packets, FullDatagram, Incoming, Truncated;
    var d, out := FullDatagram(c.l), NoData(c.l.numChans);
    BufferNotEmpty(c);
    FullIsWellFormed(c.l);
    LongDatagramRefused(c, d, []);
    assert Packets(d) + [] == Packets(d);
    var s, t := JumboUnderWay(c.l, p), JumboRefused(c.l, p);
    AppendNothing(out);
    assert Octets([]) == [];
    assert t.converted == seq(|out|, i requires 0 <= i < |out| => s.converted[i] + Unpacked(Octets(out[i])));
    RefusedRead(c, s, t);
  }

  lemma RefusedRead(c: Link, s: System, t: System)
    requires c.Valid() && c.datagram && s.left == 0 && s.inbox != []
    requires Arrived(c.l, true, s.inbox) && Truncated(true, Incoming(c.l, true, s.inbox))
    requires |s.delivered| == |s.converted| == c.l.numChans
    requires var out := NoData(c.l.numChans);
             t == System(s.inbox[1..], Rest(s.queue), out, 0, s.passes, Appended(s.delivered, out),
                         seq(|out|, i requires 0 <= i < |out| => s.converted[i] + Unpacked(Octets(out[i]))))
    ensures Step(c, s, t)
  {
    hide Decode, Unpacked, Octets, Arrived, Incoming, WellFormed;
    assert ReadStep(c, s, t, 0, STREAM_ERROR, NoData(c.l.numChans));
  }

  lemma JumboIsGone(c: Link, p: Pass)
    requires c.Valid() && !c.WholePackets()
    requires |p.first.Data(c.l.numChans)| == |p.second.Data(c.l.numChans)|
    requires p.Forwarded(c.l.numChans) == Zeros(c.l, c.l.BuffSize() * c.l.elemSize)
    ensures !Conserved(c, JumboRefused(c.l, p))
  {
    hide FullDatagram, Packets, Layout.BuffSize, Pass.Forwarded, Lossy;
    BufferNotEmpty(c);
    if Wide(c.l, [p]) {
      assert WidePass(c.l, [p][0]) && Wide(c.l, []);
      OneMore(c.l, [], p);
      MulMonotone(1, c.l.BuffSize(), c.l.elemSize);
      assert [] + [p] == [p];
      assert |Forwarded(c.l, [p])[0]| == c.l.BuffSize() * c.l.elemSize;
    }
  }

  /** Reception conserves samples on every run exactly when no datagram is cut up into packets. */
  lemma ReceptionExactly(c: Link)
    requires c.Valid()
    ensures (forall run :: IsRun(c, run) ==> Conserved(c, run[|run| - 1])) <==> c.WholePackets()
  {
    hide Init, Step, Conserved, Inv;
    if c.WholePackets() {
      forall run | IsRun(c, run) ensures Conserved(c, run[|run| - 1]) {
        RunConserves(c, run);
      }
    } else {
      var run := LosingRun(c);
    }
  }

  lemma RunConserves(c: Link, run: seq<System>)
    requires c.Valid() && c.WholePackets() && IsRun(c, run)
    ensures Conserved(c, run[|run| - 1])
  {
    RunKeeps(c, run);
  }
}
