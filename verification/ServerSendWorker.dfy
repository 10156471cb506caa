/** The server's worker that reads from the device and sends datagrams (sendEndpointWork). */
module ServerSendWorker {
  import opened Arithmetic
  import opened Bytes
  import opened Sequences
  import opened Sockets
  import opened FlowControl
  import opened HandleRing
  import opened BufferLayout
  import opened StreamEndpoint
  import opened Datagrams
  import opened DeviceStream
  import opened StreamFlags

  /** How the first, waiting read of a pass ends: got is Timeout when it was stopped before any answer. */
  datatype First = First(ret: int, got: Reply, flags: Flags, time: int, script: seq<Reply>, stop: seq<bool>) {
    function Count(): nat {
      got.Count()
    }
  }

  /** stop lists what successive tests of done find; past its end they find true. */
  function FirstRead(l: Layout, script: seq<Reply>, stop: seq<bool>, want: nat,
                     ret: int, flags: Flags, time: int): (f: First)
    requires ValidScript(l, script)
    ensures ValidScript(l, f.script) && f.got.Valid(l) && f.Count() <= want
    ensures f.got.Samples? ==> f.ret == f.got.count && f.flags == f.got.flags && f.time == f.got.time
    ensures f.got.Fault? ==> f.ret == f.got.code
    ensures flags.Valid() ==> f.flags.Valid()
    ensures Fits(8, time) ==> Fits(8, f.time)
    ensures f.got.Timeout? ==> f.ret == ret || f.ret == TIMEOUT
    ensures |f.stop| <= |stop|
    decreases |stop|
  {
    if stop == [] || stop[0] then First(ret, Timeout, flags, time, script, Rest(stop))
    else
      var a := Answer(l, script, want);
      if a.Timeout? then FirstRead(l, Rest(script), stop[1..], want, TIMEOUT, NO_FLAGS, time)
      else First(a.Ret(), a, a.OutFlags(), if a.Samples? then a.time else time, Rest(script), stop[1..])
  }

  /** One pass of the worker loop: its reads and what it hands to releaseSend. */
  datatype Pass = Pass(first: Reply, second: Reply, ret: int, flags: Flags, time: int,
                       script: seq<Reply>, stop: seq<bool>)
  {
    /** What the device delivered in this pass. */
    function Read(n: nat): seq<seq<byte>>
      requires |first.Data(n)| == |second.Data(n)|
    {
      Appended(first.Data(n), second.Data(n))
    }

    /** What the datagram of this pass carries. */
    function Forwarded(n: nat): seq<seq<byte>>
      requires |first.Data(n)| == |second.Data(n)|
    {
      if ret < 0 then NoData(n) else Read(n)
    }
  }

  /** The second read, which does not wait, and what is handed to releaseSend. */
  function FinishPass(l: Layout, f: First): (p: Pass)
    requires l.Valid() && ValidScript(l, f.script) && f.got.Valid(l) && f.Count() <= l.BuffSize()
    requires f.ret <= l.BuffSize() && (f.ret < 0 ==> Fits(4, f.ret)) && (f.got.Samples? ==> f.ret >= 0)
    ensures p.first == f.got && p.second.Valid(l) && ValidScript(l, p.script)
    ensures p.ret <= l.BuffSize() && (p.ret < 0 ==> Fits(4, p.ret))
    ensures p.ret >= 0 ==> !p.second.Fault? && p.ret == p.first.Count() + p.second.Count()
    ensures f.flags.Valid() ==> p.flags.Valid()
  {
    var n := f.Count();
    if n != 0 && n != l.BuffSize() && !f.flags.Trailing() then
      var second := Answer(l, f.script, l.BuffSize() - n);
      Pass(f.got, second, if second.Fault? then second.code else n + second.Count(),
           f.flags.WithTrailing(second.OutFlags()), f.time, Rest(f.script), f.stop)
    else
      Pass(f.got, Timeout, if f.ret < 0 then f.ret else n, f.flags, f.time, f.script, f.stop)
  }

  function WorkerPass(l: Layout, mtuElems: nat, script: seq<Reply>, stop: seq<bool>, flags: Flags, time: int): (p: Pass)
    requires l.Valid() && ValidScript(l, script)
    ensures p.first.Valid(l) && p.second.Valid(l) && ValidScript(l, p.script)
    ensures p.ret <= l.BuffSize() && (p.ret < 0 ==> Fits(4, p.ret))
    ensures p.ret >= 0 ==> p.ret == p.first.Count() + p.second.Count()
    ensures flags.Valid() ==> p.flags.Valid()
    ensures Fits(8, time) ==> Fits(8, p.time)
    ensures |p.stop| <= |stop|
  {
    PowersOf256();
    FinishPass(l, FirstRead(l, script, stop, Min(mtuElems, l.BuffSize()), l.BuffSize(), flags, time))
  }

  /** After a first read that delivered something, but did not fill the buffer or end a burst, the device answers the
      second one with an error. */
  ghost predicate SecondReadFails(l: Layout, f: First)
    requires l.Valid() && ValidScript(l, f.script)
  {
    && f.got.Samples? && 0 < f.got.count < l.BuffSize() && !f.got.flags.Trailing()
    && Answer(l, f.script, l.BuffSize() - f.got.count).Fault?
  }

  /** The same of a pass that was made. */
  predicate Lossy(l: Layout, p: Pass)
    requires l.Valid()
  {
    p.first.Samples? && 0 < p.first.count < l.BuffSize() && !p.first.flags.Trailing() && p.second.Fault?
  }

  /** How many elements of each channel a pass loses. */
  function Lost(p: Pass): nat {
    if p.ret < 0 then p.first.Count() else 0
  }

  /** A pass forwards less than was read exactly when its second read fails like that. */
  lemma PassLoses(l: Layout, mtuElems: nat, script: seq<Reply>, stop: seq<bool>, flags: Flags, time: int)
    requires l.Valid() && ValidScript(l, script)
    ensures var p := WorkerPass(l, mtuElems, script, stop, flags, time);
            var f := FirstRead(l, script, stop, Min(mtuElems, l.BuffSize()), l.BuffSize(), flags, time);
            && (p.Forwarded(l.numChans) != p.Read(l.numChans) <==> SecondReadFails(l, f))
            && (Lossy(l, p) <==> SecondReadFails(l, f)) && (Lossy(l, p) <==> Lost(p) > 0)
  {
    var f := FirstRead(l, script, stop, Min(mtuElems, l.BuffSize()), l.BuffSize(), flags, time);
    var p := WorkerPass(l, mtuElems, script, stop, flags, time);
    var c := l.numChans;
    LostElements(l, p);
    if p.ret < 0 && Lost(p) == 0 {
      assert p.second == Timeout;
      assert p.Read(c) == NoData(c);
    }
    if Lost(p) > 0 {
      MulMonotone(1, Lost(p), l.elemSize);
      assert |p.Read(c)[0]| > |p.Forwarded(c)[0]|;
    }
  }

  /** What is read is as much longer than what is forwarded as elements are lost. */
  lemma LostElements(l: Layout, p: Pass)
    requires l.Valid() && p.first.Valid(l) && p.second.Valid(l) && (p.ret < 0 ==> p.second.Count() == 0)
    ensures |p.Read(l.numChans)| == |p.Forwarded(l.numChans)| == l.numChans
    ensures forall i :: 0 <= i < l.numChans ==>
              |p.Read(l.numChans)[i]| == |p.Forwarded(l.numChans)[i]| + Lost(p) * l.elemSize
  {
    ReplySize(l, p.first);
    ReplySize(l, p.second);
  }

  /** Such passes exist: one element, and then a device error. */
  lemma PassCanLose(l: Layout, mtuElems: nat, data: seq<seq<byte>>)
    requires l.Valid() && l.BuffSize() >= 2 && mtuElems > 0
    requires |data| == l.numChans && forall i :: 0 <= i < |data| ==> |data[i]| == l.elemSize
    ensures var script := [Samples(1, data, NO_FLAGS, 0), Fault(-4)];
            && ValidScript(l, script)
            && var p := WorkerPass(l, mtuElems, script, [false], NO_FLAGS, 0);
               p.Forwarded(l.numChans) == NoData(l.numChans) && p.Read(l.numChans) == data && Lossy(l, p)
  {
    PowersOf256();
    var script := [Samples(1, data, NO_FLAGS, 0), Fault(-4)];
    assert Fits(4, -4) && Fits(8, 0);
    assert script[0].Valid(l) && script[1].Valid(l);
    assert Answer(l, script, Min(mtuElems, l.BuffSize())) == script[0];
    assert Rest(script)[0] == Fault(-4);
    var p := WorkerPass(l, mtuElems, script, [false], NO_FLAGS, 0);
    assert p.first == script[0] && p.second == Fault(-4);
    AppendNothing(data);
  }

  /** Burst boundaries: a read with a trailing flag is the last one of its pass, and the datagram has the
      first read's time and flags, with the trailing flags of the second. */
  lemma PassKeepsBursts(l: Layout, mtuElems: nat, script: seq<Reply>, stop: seq<bool>, flags: Flags, time: int)
    requires l.Valid() && ValidScript(l, script)
    ensures var p := WorkerPass(l, mtuElems, script, stop, flags, time);
            && (p.first.OutFlags().Trailing() ==> p.second == Timeout && p.Read(l.numChans) == p.first.Data(l.numChans))
            && (p.first.Samples? ==> p.flags == p.first.flags.WithTrailing(p.second.OutFlags()))
            && (p.first.Samples? ==> p.time == p.first.time)
            && (!p.first.Samples? ==> p.second == Timeout)
  {
    var p := WorkerPass(l, mtuElems, script, stop, flags, time);
    if p.first.OutFlags().Trailing() {
      AppendNothing(p.first.Data(l.numChans));
    }
  }

  /** Flag by flag: the datagram has all of the first read's, and of the second one's only those that end something; any
      of these stops the second read; a device error comes without flags. */
  lemma PassFlags(l: Layout, mtuElems: nat, script: seq<Reply>, stop: seq<bool>, flags: Flags, time: int)
    requires l.Valid() && ValidScript(l, script)
    ensures var p := WorkerPass(l, mtuElems, script, stop, flags, time);
            var f, g, h := p.first.OutFlags(), p.second.OutFlags(), p.flags;
            && (p.first.Samples? ==>
                  && h.endBurst == (f.endBurst || g.endBurst) && h.onePacket == (f.onePacket || g.onePacket)
                  && h.endAbrupt == (f.endAbrupt || g.endAbrupt) && h.hasTime == f.hasTime
                  && h.moreFragments == f.moreFragments && h.bit0 == f.bit0 && h.high == f.high)
            && (f.endBurst || f.onePacket || f.endAbrupt ==> p.second == Timeout)
            && (p.first.Samples? && 0 < p.first.count < l.BuffSize() && !f.endBurst && !f.onePacket && !f.endAbrupt ==>
                  exists rest: seq<Reply> :: ValidScript(l, rest) && p.script == Rest(rest)
                                             && p.second == Answer(l, rest, l.BuffSize() - p.first.count))
            && (p.first.Fault? ==>
                  && !h.endBurst && !h.onePacket && !h.endAbrupt && !h.hasTime && !h.moreFragments && !h.bit0
                  && h.high == 0 && p.ret == p.first.code)
  {
    var f := FirstRead(l, script, stop, Min(mtuElems, l.BuffSize()), l.BuffSize(), flags, time);
    ErrorFlags(l, script, stop, Min(mtuElems, l.BuffSize()), l.BuffSize(), flags, time);
    assert ValidScript(l, f.script);
  }

  lemma {:induction false} ErrorFlags(l: Layout, script: seq<Reply>, stop: seq<bool>, want: nat, ret: int, flags: Flags,
                                      time: int)
    requires ValidScript(l, script)
    ensures var f := FirstRead(l, script, stop, want, ret, flags, time); f.got.Fault? ==> f.flags == NO_FLAGS
    decreases |stop|
  {
    if !(stop == [] || stop[0]) && Answer(l, script, want).Timeout? {
      ErrorFlags(l, Rest(script), stop[1..], want, TIMEOUT, NO_FLAGS, time);
    }
  }

  /** The same of any pass, by the flags alone: no samples behind a burst's end, and the end's flag goes along. */
  ghost predicate BurstWhole(p: Pass) {
    && (p.first.OutFlags().Trailing() ==> p.second == Timeout)
    && (p.first.OutFlags().Trailing() || p.second.OutFlags().Trailing() ==> p.flags.Trailing())
  }

  lemma PassKeepsBurst(l: Layout, mtuElems: nat, p: Pass)
    requires l.Valid() && IsPass(l, mtuElems, p)
    ensures BurstWhole(p)
  {
    hide WorkerPass;
    var script: seq<Reply>, stop: seq<bool>, flags: Flags, time: int :|
      ValidScript(l, script) && p == WorkerPass(l, mtuElems, script, stop, flags, time);
    PassKeepsBursts(l, mtuElems, script, stop, flags, time);
  }

  /** So over a whole run: no datagram has samples behind a burst's end, and the end's flag is on it. */
  lemma BurstsStayWhole(l: Layout, mtuElems: nat, passes: seq<Pass>)
    requires l.Valid() && forall k :: 0 <= k < |passes| ==> IsPass(l, mtuElems, passes[k])
    ensures forall k :: 0 <= k < |passes| ==> BurstWhole(passes[k])
  {
    hide IsPass, BurstWhole;
    forall k | 0 <= k < |passes| ensures BurstWhole(passes[k]) {
      PassKeepsBurst(l, mtuElems, passes[k]);
    }
  }

  /** The sizes of what a pass reads and sends. */
  lemma PassSizes(l: Layout, mtuElems: nat, script: seq<Reply>, stop: seq<bool>, flags: Flags, time: int)
    requires l.Valid() && ValidScript(l, script)
    ensures var p := WorkerPass(l, mtuElems, script, stop, flags, time);
            p.ret >= 0 ==> forall i :: 0 <= i < l.numChans ==> |p.Read(l.numChans)[i]| == p.ret * l.elemSize
  {
    hide WorkerPass, Layout.BuffSize, Reply.Valid, Reply.Data;
    var p := WorkerPass(l, mtuElems, script, stop, flags, time);
    if p.ret >= 0 {
      ReplySize(l, p.first);
      ReplySize(l, p.second);
      Distribute(l.elemSize, p.first.Count(), p.second.Count());
    }
  }

  lemma ReplySize(l: Layout, r: Reply)
    requires r.Valid(l)
    ensures |r.Data(l.numChans)| == l.numChans
    ensures forall i :: 0 <= i < l.numChans ==> |r.Data(l.numChans)[i]| == r.Count() * l.elemSize
  {
  }

  // ---------- the turns of the loop ----------

  /** What decides whether the window is open: the sequence state and the ACKs that wait. */
  datatype Gate = Gate(e: Seqs, inbox: seq<seq<byte>>) {
    /** waitSend, when more ACKs have come in: only a closed window takes in the ACKs, and then all of them. */
    function Waited(arrived: seq<seq<byte>>): (g: Gate)
      requires AcksOnly(inbox) && AcksOnly(arrived)
      ensures AcksOnly(g.inbox)
    {
      if e.Blocked(Words) then Gate(AfterAcks(e, inbox + arrived), []) else Gate(e, inbox + arrived)
    }

    predicate Open() {
      !e.Blocked(Words)
    }
  }

  /** The worker before a turn; flags and time are those of its last pass. */
  datatype Worker = Worker(gate: Gate, script: seq<Reply>, stop: seq<bool>, flags: Flags, time: int)

  /** A turn of the loop: exactly one pass if the window is open, and nothing otherwise. */
  ghost predicate IsTurn(l: Layout, mtuElems: nat, w: Worker, arrived: seq<seq<byte>>, made: seq<Pass>, w': Worker)
    requires l.Valid() && ValidScript(l, w.script) && AcksOnly(w.gate.inbox) && AcksOnly(arrived)
  {
    var g := w.gate.Waited(arrived);
    if g.Open() then
      && |made| == 1 && made[0] == WorkerPass(l, mtuElems, w.script, w.stop, w.flags, w.time)
      && w' == Worker(g.(e := g.e.DatagramSent(Words)), made[0].script, made[0].stop, made[0].flags, made[0].time)
    else made == [] && w' == w.(gate := g)
  }

  /** A turn with the worker before it, at the test of done that lets it begin, and the passes it made. */
  datatype Turn = Turn(before: Worker, made: seq<Pass>)

  function ArrivalAt(arrivals: seq<seq<seq<byte>>>, k: nat): seq<seq<byte>> {
    if k < |arrivals| then arrivals[k] else []
  }

  /** The turns lead from one state of the worker to another: each follows a test that found false. */
  ghost predicate Turns(l: Layout, mtuElems: nat, first: Worker, arrivals: seq<seq<seq<byte>>>, turns: seq<Turn>,
                        last: Worker)
    decreases |turns|
  {
    if turns == [] then first == last
    else
      var n, w := |turns| - 1, turns[|turns| - 1].before;
      && Turns(l, mtuElems, first, arrivals, turns[..n], w)
      && w.stop != [] && !w.stop[0]
      && l.Valid() && ValidScript(l, w.script) && AcksOnly(w.gate.inbox) && AcksOnly(ArrivalAt(arrivals, n))
      && IsTurn(l, mtuElems, w.(stop := w.stop[1..]), ArrivalAt(arrivals, n), turns[n].made, last)
  }

  function PassesOf(turns: seq<Turn>): seq<Pass> {
    if turns == [] then [] else PassesOf(turns[..|turns| - 1]) + turns[|turns| - 1].made
  }

  lemma TurnsMore(l: Layout, mtuElems: nat, first: Worker, arrivals: seq<seq<seq<byte>>>, turns: seq<Turn>, w: Worker,
                  made: seq<Pass>, w': Worker)
    requires l.Valid() && ValidScript(l, w.script) && AcksOnly(w.gate.inbox)
    requires Turns(l, mtuElems, first, arrivals, turns, w) && w.stop != [] && !w.stop[0]
    requires AcksOnly(ArrivalAt(arrivals, |turns|))
    requires IsTurn(l, mtuElems, w.(stop := w.stop[1..]), ArrivalAt(arrivals, |turns|), made, w')
    ensures Turns(l, mtuElems, first, arrivals, turns + [Turn(w, made)], w')
    ensures PassesOf(turns + [Turn(w, made)]) == PassesOf(turns) + made
  {
    hide IsTurn;
    assert (turns + [Turn(w, made)])[..|turns|] == turns;
  }

  lemma {:induction false} ReadLeaves(l: Layout, script: seq<Reply>, stop: seq<bool>, want: nat, ret: int, flags: Flags,
                                      time: int)
    requires ValidScript(l, script)
    ensures LeftOf(FirstRead(l, script, stop, want, ret, flags, time).stop, stop)
    decreases |stop|
  {
    if !(stop == [] || stop[0]) && Answer(l, script, want).Timeout? {
      ReadLeaves(l, Rest(script), stop[1..], want, TIMEOUT, NO_FLAGS, time);
    }
  }

  /** The device's n-th answer ends the waiting read: those before it were timeouts, and a test of done that found
      false came before each call. */
  predicate AnsweredAt(l: Layout, script: seq<Reply>, stop: seq<bool>, want: nat, f: First, n: nat)
    requires n < |script| && n < |stop| && ValidScript(l, script)
  {
    && f.got == script[n].Clip(l, want) && f.script == script[n + 1..] && f.stop == stop[n + 1..]
    && (forall i :: 0 <= i < n ==> script[i].Timeout?) && (forall i :: 0 <= i <= n ==> !stop[i])
  }

  /** The waiting read ends with the device's first answer that is not a timeout, or when a test of done finds true. */
  lemma {:induction false} ReadEnds(l: Layout, script: seq<Reply>, stop: seq<bool>, want: nat, ret: int, flags: Flags,
                                    time: int)
    requires ValidScript(l, script)
    ensures var f := FirstRead(l, script, stop, want, ret, flags, time);
            if f.got.Timeout? then FoundTrue(stop, f.stop)
            else exists n: nat :: n < |script| && n < |stop| && AnsweredAt(l, script, stop, want, f, n)
    decreases |stop|
  {
    var f := FirstRead(l, script, stop, want, ret, flags, time);
    ReadLeaves(l, script, stop, want, ret, flags, time);
    if !(stop == [] || stop[0]) {
      if Answer(l, script, want).Timeout? {
        ReadLeaves(l, Rest(script), stop[1..], want, TIMEOUT, NO_FLAGS, time);
        ReadEnds(l, Rest(script), stop[1..], want, TIMEOUT, NO_FLAGS, time);
        if !f.got.Timeout? {
          var n: nat :| n < |Rest(script)| && n < |stop[1..]| && AnsweredAt(l, Rest(script), stop[1..], want, f, n);
          assert AnsweredAt(l, script, stop, want, f, n + 1);
        }
      } else {
        assert AnsweredAt(l, script, stop, want, f, 0);
      }
    }
  }

  lemma PassLeaves(l: Layout, mtuElems: nat, script: seq<Reply>, stop: seq<bool>, flags: Flags, time: int)
    requires l.Valid() && ValidScript(l, script)
    ensures LeftOf(WorkerPass(l, mtuElems, script, stop, flags, time).stop, stop)
  {
    ReadLeaves(l, script, stop, Min(mtuElems, l.BuffSize()), l.BuffSize(), flags, time);
  }

  lemma {:induction false} TurnsLeave(l: Layout, mtuElems: nat, first: Worker, arrivals: seq<seq<seq<byte>>>,
                                      turns: seq<Turn>, last: Worker)
    requires Turns(l, mtuElems, first, arrivals, turns, last)
    ensures LeftOf(last.stop, first.stop)
    decreases |turns|
  {
    hide WorkerPass, LeftOf, AfterAcks;
    if turns == [] {
      Itself(first.stop);
    } else {
      var n, w := |turns| - 1, turns[|turns| - 1].before;
      TurnsLeave(l, mtuElems, first, arrivals, turns[..n], w);
      WithoutFirst(w.stop);
      LeftOfTwice(w.stop[1..], w.stop, first.stop);
      if turns[n].made != [] {
        PassLeaves(l, mtuElems, w.script, w.stop[1..], w.flags, w.time);
        LeftOfTwice(last.stop, w.stop[1..], first.stop);
      }
    }
  }

  datatype Outcome = Waiting | Sent | Quit

  class ServerStreamData {
    const device: Device
    const endpoint: StreamEndpoint
    const mtuElems: nat

    // the outcomes of the coming tests of done
    var stop: seq<bool>

    constructor (device: Device, endpoint: StreamEndpoint, mtuElems: nat, stop: seq<bool>)
      ensures this.device == device && this.endpoint == endpoint && this.mtuElems == mtuElems && this.stop == stop
    {
      this.device, this.endpoint, this.mtuElems, this.stop := device, endpoint, mtuElems, stop;
    }

    method Done() returns (done: bool)
      modifies `stop
      ensures done == (old(stop) == [] || old(stop)[0]) && stop == Rest(old(stop))
    {
      done := stop == [] || stop[0];
      stop := Rest(stop);
    }

    /** Reads up to the device's MTU, waiting until something arrives or the worker is stopped. */
    method ReadFirst(buf: array<byte>, buffs: seq<nat>, ret0: int, flags0: Flags, time0: int)
      returns (ret: int, elemsRead: nat, flags: Flags, time: int, ghost f: First)
      requires endpoint.layout.Valid() && ValidScript(endpoint.layout, device.script)
      requires |buffs| == endpoint.layout.numChans == |device.produced|
      requires Separate(buffs, endpoint.layout.BuffSize() * endpoint.layout.elemSize, buf.Length)
      modifies `stop, device, buf
      ensures var l := endpoint.layout;
              f == FirstRead(l, old(device.script), old(stop), Min(mtuElems, l.BuffSize()), ret0, flags0, time0)
      ensures ret == f.ret && flags == f.flags && time == f.time && elemsRead == f.Count()
      ensures device.script == f.script && stop == f.stop
      ensures device.produced == Appended(old(device.produced), f.got.Data(endpoint.layout.numChans))
      ensures if f.got.Samples? then Scattered(old(buf[..]), buf[..], buffs, f.got.data) else buf[..] == old(buf[..])
    {
      ghost var l := endpoint.layout;
      var numElems := Min(mtuElems, endpoint.layout.BuffSize());
      SeparateSmaller(buffs, numElems, l.BuffSize(), l.elemSize, buf.Length);
      AppendNothing(device.produced);
      ret, elemsRead, flags, time := ret0, 0, flags0, time0;
      while true
        invariant ValidScript(l, device.script)
        invariant FirstRead(l, device.script, stop, numElems, ret, flags, time)
               == FirstRead(l, old(device.script), old(stop), numElems, ret0, flags0, time0)
        invariant device.produced == old(device.produced) && buf[..] == old(buf[..]) && elemsRead == 0
        decreases |stop|
      {
        f := FirstRead(l, device.script, stop, numElems, ret, flags, time);
        var done := Done();
        if done {
          break;
        }
        ghost var a;
        a, ret, flags, time := device.ReadStream(endpoint.layout, buf, buffs, numElems, time);
        if ret == TIMEOUT {
          continue;
        }
        if ret >= 0 {
          elemsRead := ret;
        }
        break;
      }
    }

    /** The body of a pass between acquireSend and releaseSend. */
    method FillBuffer(buf: array<byte>, buffs0: seq<nat>, ret0: int, flags0: Flags, time0: int)
      returns (ret: int, flags: Flags, time: int, ghost p: Pass)
      requires endpoint.layout.Valid() && ValidScript(endpoint.layout, device.script)
      requires |buffs0| == endpoint.layout.numChans == |device.produced|
      requires forall i :: 0 <= i < |buffs0| ==> buffs0[i] == endpoint.layout.Offset(i)
      requires buf.Length == endpoint.layout.xferSize && ret0 == endpoint.layout.BuffSize()
      modifies `stop, device, buf
      ensures p == WorkerPass(endpoint.layout, mtuElems, old(device.script), old(stop), flags0, time0)
      ensures ret == p.ret && flags == p.flags && time == p.time
      ensures device.script == p.script && stop == p.stop
      ensures device.produced == Appended(old(device.produced), p.Read(endpoint.layout.numChans))
      ensures p.ret >= 0 ==> HoldsChannels(endpoint.layout, buf[..], p.ret, p.Read(endpoint.layout.numChans))
    {
      ghost var l, b0, before := endpoint.layout, buf[..], device.produced;
      var elemsRead;
      ghost var f;
      OffsetsSeparate(l, buffs0);
      ret, elemsRead, flags, time, f := ReadFirst(buf, buffs0, ret0, flags0, time0);
      AppendedTwice(before, f.got.Data(l.numChans), FinishPass(l, f).second.Data(l.numChans));
      ret, flags, p := ReadRest(buf, buffs0, ret, elemsRead, flags, f, b0);
    }

    /** The read behind the first numElems elements. */
    method ReadMore(buf: array<byte>, buffs0: seq<nat>, numElems: nat, elemsLeft: nat)
      returns (ret: int, flags: Flags, ghost next: seq<nat>)
      requires endpoint.layout.Valid() && ValidScript(endpoint.layout, device.script)
      requires |buffs0| == endpoint.layout.numChans == |device.produced|
      requires numElems + elemsLeft == endpoint.layout.BuffSize()
      requires buf.Length == endpoint.layout.xferSize
      requires Separate(buffs0, endpoint.layout.BuffSize() * endpoint.layout.elemSize, buf.Length)
      modifies device, buf
      ensures var a := Answer(endpoint.layout, old(device.script), elemsLeft);
              && ret == a.Ret() && flags == a.OutFlags() && device.script == Rest(old(device.script))
              && device.produced == Appended(old(device.produced), a.Data(endpoint.layout.numChans))
              && if a.Samples? then Scattered(old(buf[..]), buf[..], next, a.data) else buf[..] == old(buf[..])
      ensures |next| == |buffs0| && forall i :: 0 <= i < |next| ==>
          next[i] == buffs0[i] + numElems * endpoint.layout.elemSize
    {
      var buffs := IncrementBuffs(buffs0, numElems, endpoint.layout.elemSize);
      RestSeparate(endpoint.layout, buffs0, buffs, numElems);
      ghost var a;
      var time;
      a, ret, flags, time := device.ReadStream(endpoint.layout, buf, buffs, elemsLeft, 0);
      next := buffs;
    }

    /** Fills the rest of the buffer with what is there, unless a burst has just ended. */
    method ReadRest(buf: array<byte>, buffs0: seq<nat>, ret0: int, elemsRead0: nat, flags0: Flags,
                    ghost f: First, ghost b0: seq<byte>)
      returns (ret: int, flags: Flags, ghost p: Pass)
      requires endpoint.layout.Valid() && ValidScript(endpoint.layout, device.script)
      requires |buffs0| == endpoint.layout.numChans == |device.produced|
      requires forall i :: 0 <= i < |buffs0| ==> buffs0[i] == endpoint.layout.Offset(i)
      requires Separate(buffs0, endpoint.layout.BuffSize() * endpoint.layout.elemSize, buf.Length)
      requires buf.Length == endpoint.layout.xferSize == |b0|
      requires FinishPass.requires(endpoint.layout, f)
      requires ret0 == f.ret && elemsRead0 == f.Count() && flags0 == f.flags && device.script == f.script
      requires if f.got.Samples? then Scattered(b0, buf[..], buffs0, f.got.data) else buf[..] == b0
      modifies device, buf
      ensures p == FinishPass(endpoint.layout, f) && ret == p.ret && flags == p.flags && device.script == p.script
      ensures device.produced == Appended(old(device.produced), p.second.Data(endpoint.layout.numChans))
      ensures p.ret >= 0 ==> HoldsChannels(endpoint.layout, buf[..], p.ret, p.Read(endpoint.layout.numChans))
    {
      ghost var l := endpoint.layout;
      p := FinishPass(l, f);
      ret, flags := ret0, flags0;
      var elemsRead, elemsLeft := elemsRead0, endpoint.layout.BuffSize() - elemsRead0;
      AppendNothing(device.produced);
      if elemsRead != 0 && elemsLeft != 0 && !flags.Trailing() {
        ghost var b1, buffs := buf[..], [];
        var flags1;
        ret, flags1, buffs := ReadMore(buf, buffs0, elemsRead, elemsLeft);
        if ret == TIMEOUT {
          ret := 0;
        }
        if ret > 0 {
          elemsLeft := elemsLeft - ret;
          elemsRead := elemsRead + ret;
        }
        flags := flags.WithTrailing(flags1);
        if p.ret >= 0 {
          TwoReads(l, b0, b1, buf[..], p, buffs0, buffs);
        }
      } else if p.ret >= 0 {
        OneRead(l, b0, buf[..], p, buffs0);
      }
      assert elemsRead + elemsLeft == endpoint.layout.BuffSize();
      ret := if ret < 0 then ret else elemsRead;
    }

    /** One pass: a handle, the reads, the datagram. */
    method OnePass(flags0: Flags, time0: int)
      returns (ok: bool, flags: Flags, time: int, ghost p: Pass, ghost d: seq<byte>, ghost pieces: seq<seq<byte>>)
      requires endpoint.Valid() && ValidScript(endpoint.layout, device.script)
      requires |device.produced| == endpoint.layout.numChans && flags0.Valid() && Fits(8, time0)
      modifies `stop, device, endpoint, endpoint.acquired, endpoint.buffData, endpoint.streamSock`outbox
      ensures endpoint.Valid() && ok == !old(endpoint.Handles()).Full()
      ensures !ok ==>
                && device.script == old(device.script) && flags == flags0 && time == time0 && stop == old(stop)
                && endpoint.streamSock.outbox == old(endpoint.streamSock.outbox)
                && endpoint.Handles() == old(endpoint.Handles())
                && device.produced == old(device.produced) && endpoint.Sequences() == old(endpoint.Sequences())
      ensures ok ==> IsPass(endpoint.layout, mtuElems, p)
      ensures ok ==> var r := old(endpoint.Handles());
                     && p == WorkerPass(endpoint.layout, mtuElems, old(device.script), old(stop), flags0, time0)
                     && stop == p.stop && device.script == p.script && flags == p.flags && time == p.time
                     && Carries(endpoint.layout, d, p, Words.Wire(old(endpoint.lastSendSequence)))
                     && device.produced == Appended(old(device.produced), p.Read(endpoint.layout.numChans))
                     && r.Acquire().Valid() && endpoint.Handles() == r.Acquire().Release(r.next)
                     && endpoint.Sequences() == old(endpoint.Sequences()).DatagramSent(Words)
                     && endpoint.streamSock.outbox == old(endpoint.streamSock.outbox) + pieces
                     && SentAs(Link(endpoint.layout, endpoint.streamSock.datagram), d, pieces)
    {
      hide WorkerPass, HoldsChannels, Layout.BuffSize, Layout.Offset, Layout.Bytes, Flatten, Packets, Encode;
      flags, time := flags0, time0;
      p, d, pieces := WorkerPass(endpoint.layout, mtuElems, device.script, stop, flags0, time0), [], [];
      if !endpoint.Handles().Full() {
        AcquireRefines(endpoint.Handles());
      }
      var ret, handle, buffs := endpoint.AcquireSend();
      if ret < 0 {
        return false, flags, time, p, d, pieces;
      }
      var buf := endpoint.buffData[handle];
      ret, flags, time, p := FillBuffer(buf, buffs, ret, flags, time);
      ghost var filled := buf[..];
      ghost var h := endpoint.SendHeader(ret, flags, time);
      pieces := endpoint.ReleaseSend(handle, ret, flags, time);
      SentCarries(endpoint.layout, filled, p, h, buf[..]);
      d := buf[..h.bytes];
      ok := true;
    }

    /** One turn of the worker loop: waits for the window, and makes a pass if it is open. */
    method Cycle(arrived: seq<seq<byte>>, flags0: Flags, time0: int)
      returns (out: Outcome, flags: Flags, time: int, ghost p: Pass, ghost d: seq<byte>, ghost pieces: seq<seq<byte>>)
      requires endpoint.Valid() && ValidScript(endpoint.layout, device.script)
      requires |device.produced| == endpoint.layout.numChans && flags0.Valid() && Fits(8, time0)
      requires AcksOnly(endpoint.streamSock.inbox) && AcksOnly(arrived)
      modifies `stop, device, endpoint, endpoint.acquired, endpoint.buffData, endpoint.streamSock
      ensures endpoint.Valid() && AcksOnly(endpoint.streamSock.inbox) && ValidScript(endpoint.layout, device.script)
      ensures old(endpoint.numHandlesAcquired) == 0 ==> endpoint.numHandlesAcquired == 0
      ensures flags.Valid() && Fits(8, time) && |stop| <= |old(stop)|
      ensures out == Quit <==> old(Now(flags0, time0)).gate.Waited(arrived).Open() && old(endpoint.Handles()).Full()
      ensures out == Quit ==> stop == old(stop) && endpoint.Handles().Full()
      ensures out != Quit ==> IsTurn(endpoint.layout, mtuElems, old(Now(flags0, time0)), arrived,
                                     if out == Sent then [p] else [], Now(flags, time))
      ensures if out == Sent then
                && IsPass(endpoint.layout, mtuElems, p) && p.ret <= endpoint.layout.BuffSize()
                && Carries(endpoint.layout, d, p, Words.Wire(old(endpoint.lastSendSequence)))
                && device.produced == Appended(old(device.produced), p.Read(endpoint.layout.numChans))
                && endpoint.lastSendSequence == Words.IncSend(old(endpoint.lastSendSequence))
                && endpoint.streamSock.outbox == old(endpoint.streamSock.outbox) + pieces
                && SentAs(Link(endpoint.layout, endpoint.streamSock.datagram), d, pieces)
              else
                && device.produced == old(device.produced)
                && endpoint.streamSock.outbox == old(endpoint.streamSock.outbox)
                && endpoint.lastSendSequence == old(endpoint.lastSendSequence)
    {
      hide WorkerPass, IsPass, SentAs, Carries, Layout.BuffSize, AfterAcks, Flatten, Packets;
      flags, time := flags0, time0;
      p, d, pieces := WorkerPass(endpoint.layout, mtuElems, device.script, stop, flags0, time0), [], [];
      endpoint.streamSock.Arrive(arrived);
      var ready := endpoint.WaitSend();
      if !ready {
        return Waiting, flags, time, p, d, pieces;
      }
      if endpoint.numHandlesAcquired == 0 {
        AcquireThenRelease(endpoint.Handles());
      }
      var ok;
      ok, flags, time, p, d, pieces := OnePass(flags, time);
      out := if ok then Sent else Quit;
    }

    /** A turn as part of a run. */
    method LoggedCycle(arrived: seq<seq<byte>>, flags0: Flags, time0: int,
                       ghost passes0: seq<Pass>, ghost sent0: seq<seq<byte>>, ghost pieces0: seq<seq<byte>>,
                       ghost first: int, ghost before: seq<seq<byte>>, ghost outbox: seq<seq<byte>>)
      returns (quit: bool, flags: Flags, time: int, ghost made: seq<Pass>,
               ghost passes: seq<Pass>, ghost sent: seq<seq<byte>>, ghost pieces: seq<seq<byte>>)
      requires Ready() && flags0.Valid() && Fits(8, time0) && AcksOnly(arrived)
      requires Run(passes0, sent0, pieces0, first, before, outbox)
      modifies `stop, device, endpoint, endpoint.acquired, endpoint.buffData, endpoint.streamSock
      ensures Ready() && flags.Valid() && Fits(8, time) && |stop| <= |old(stop)|
      ensures old(endpoint.numHandlesAcquired) == 0 ==> endpoint.numHandlesAcquired == 0
      ensures quit <==> old(Now(flags0, time0)).gate.Waited(arrived).Open() && old(endpoint.Handles()).Full()
      ensures quit ==> made == [] && stop == old(stop) && endpoint.Handles().Full()
      ensures !quit ==> IsTurn(endpoint.layout, mtuElems, old(Now(flags0, time0)), arrived, made, Now(flags, time))
      ensures Run(passes, sent, pieces, first, before, outbox) && passes == passes0 + made
    {
      hide WorkerPass, IsPass, Carries, Logged, Flatten, Packets, Layout.BuffSize, Appended, IsTurn, Gate.Waited,
           Gate.Open, SentAs;
      ghost var produced, lastSend := device.produced, endpoint.lastSendSequence;
      var out;
      ghost var p, d, more;
      out, flags, time, p, d, more := Cycle(arrived, flags0, time0);
      made, passes, sent, pieces := [], passes0, sent0, pieces0;
      if out == Sent {
        LogStep(endpoint.layout, passes0, sent0, pieces0, first, before, produced, lastSend,
                endpoint.streamSock.datagram, p, d, Words.Wire(lastSend), more);
        Assoc(outbox, pieces0, more);
        made, passes, sent, pieces := [p], passes0 + [p], sent0 + [d], pieces0 + more;
      }
      quit := out == Quit;
    }

    /** The worker's state, without its endpoint's handles. */
    ghost function Now(flags: Flags, time: int): Worker
      reads this, device, endpoint, endpoint.streamSock
    {
      Worker(Gate(endpoint.Sequences(), endpoint.streamSock.inbox), device.script, stop, flags, time)
    }

    /** What the worker needs of its endpoint and device. */
    ghost predicate Ready()
      reads this, device, endpoint, endpoint.acquired, endpoint.streamSock
    {
      && endpoint.Valid() && ValidScript(endpoint.layout, device.script)
      && |device.produced| == endpoint.layout.numChans && AcksOnly(endpoint.streamSock.inbox)
    }

    /** The worker's run so far, from sequence number first, device streams before and the given outbox. */
    ghost predicate Run(passes: seq<Pass>, sent: seq<seq<byte>>, pieces: seq<seq<byte>>,
                        first: int, before: seq<seq<byte>>, outbox: seq<seq<byte>>)
      reads this, device, endpoint, endpoint.streamSock
    {
      && endpoint.layout.Valid() && |before| == endpoint.layout.numChans
      && Logged(endpoint.layout, passes, sent, pieces, first, before, device.produced,
                endpoint.lastSendSequence, endpoint.streamSock.datagram)
      && (forall k :: 0 <= k < |passes| ==> IsPass(endpoint.layout, mtuElems, passes[k]))
      && endpoint.streamSock.outbox == outbox + pieces
    }

    /** The worker: arrivals[k] are the ACKs that come in before its k-th wait. It makes a turn after every test of done
        that finds false, up to a test that finds true, unless all handles are held when it wants one. */
    method SendEndpointWork(arrivals: seq<seq<seq<byte>>>)
      returns (quit: bool, ghost turns: seq<Turn>, ghost last: Worker,
               ghost passes: seq<Pass>, ghost sent: seq<seq<byte>>, ghost pieces: seq<seq<byte>>)
      requires Ready() && 0 <= endpoint.lastSendSequence < U64
      requires forall k :: 0 <= k < |arrivals| ==> AcksOnly(arrivals[k])
      modifies `stop, device, endpoint, endpoint.acquired, endpoint.buffData, endpoint.streamSock
      ensures endpoint.Valid() && (old(endpoint.numHandlesAcquired) == 0 ==> endpoint.numHandlesAcquired == 0)
      ensures Turns(endpoint.layout, mtuElems, old(Now(NO_FLAGS, 0)), arrivals, turns, last)
      ensures passes == PassesOf(turns)
      ensures LeftOf(stop, old(stop))
      ensures !quit ==>
                && (last.stop == [] || last.stop[0]) && FoundTrue(old(stop), stop)
                && Now(last.flags, last.time) == last.(stop := Rest(last.stop))
      ensures quit ==>
                && last.stop != [] && !last.stop[0] && AcksOnly(last.gate.inbox)
                && AcksOnly(ArrivalAt(arrivals, |turns|))
                && last.gate.Waited(ArrivalAt(arrivals, |turns|)).Open() && endpoint.Handles().Full()
      ensures old(endpoint.numHandlesAcquired) == 0 ==> !quit
      ensures RunOf(endpoint.layout, passes, sent, old(endpoint.lastSendSequence),
                    old(device.produced), device.produced)
      ensures |sent| == |passes| && forall k :: 0 <= k < |passes| ==> IsPass(endpoint.layout, mtuElems, passes[k])
      ensures endpoint.streamSock.outbox == old(endpoint.streamSock.outbox) + pieces
      ensures SentAllAs(pieces, sent, endpoint.streamSock.datagram)
      ensures endpoint.streamSock.datagram && endpoint.layout.xferSize <= BUFFMAX ==> pieces == sent
    {
      hide IsPass, RunOf, Flatten, IsTurn, Gate.Waited, Gate.Open, LeftOf, FoundTrue, Turns, PassesOf, SentAllAs,
           Logged, Layout.Valid, Ring.Fifo, Flags.Valid;
      ghost var l, first, start := endpoint.layout, endpoint.lastSendSequence, Now(NO_FLAGS, 0);
      quit, turns, last, passes, sent, pieces := false, [], start, [], [], [];
      NoTurns(l, mtuElems, start, arrivals);
      NothingLogged(l, first, device.produced, endpoint.streamSock.datagram);
      var flags, time, k := NO_FLAGS, 0, 0;
      var done := Done();
      while !done
        invariant Ready() && flags.Valid() && Fits(8, time) && 0 <= k <= |arrivals|
        invariant k == Min(|turns|, |arrivals|) && !quit
        invariant old(endpoint.numHandlesAcquired) == 0 ==> endpoint.numHandlesAcquired == 0
        invariant Turns(l, mtuElems, start, arrivals, turns, last) && passes == PassesOf(turns)
        invariant Now(flags, time) == last.(stop := Rest(last.stop))
        invariant done == (last.stop == [] || last.stop[0])
        invariant Run(passes, sent, pieces, first, old(device.produced), old(endpoint.streamSock.outbox))
        decreases |stop|, !done
      {
        var arrived := [];
        if k < |arrivals| {
          arrived := arrivals[k];
          k := k + 1;
        }
        ghost var made;
        assert ValidScript(l, last.script) && AcksOnly(last.gate.inbox) && arrived == ArrivalAt(arrivals, |turns|);
        assert Now(flags, time) == last.(stop := last.stop[1..]);
        quit, flags, time, made, passes, sent, pieces :=
          LoggedCycle(arrived, flags, time, passes, sent, pieces, first, old(device.produced),
                      old(endpoint.streamSock.outbox));
        if quit {
          break;
        }
        TurnsMore(l, mtuElems, start, arrivals, turns, last, made, Now(flags, time));
        turns, last := turns + [Turn(last, made)], Now(flags, time);
        done := Done();
      }
      TurnsLeave(l, mtuElems, start, arrivals, turns, last);
      if !quit {
        EndsTrue(old(stop), last.stop);
      } else {
        WithoutFirst(last.stop);
        LeftOfTwice(stop, last.stop, old(stop));
      }
      LogParts(l, passes, sent, pieces, first, old(device.produced), device.produced,
               endpoint.lastSendSequence, endpoint.streamSock.datagram);
    }
  }

  lemma NoTurns(l: Layout, mtuElems: nat, first: Worker, arrivals: seq<seq<seq<byte>>>)
    ensures Turns(l, mtuElems, first, arrivals, [], first) && PassesOf([]) == []
  {
  }

  /** p is a pass the worker can make. */
  ghost predicate IsPass(l: Layout, mtuElems: nat, p: Pass)
    requires l.Valid()
  {
    exists script: seq<Reply>, stop: seq<bool>, flags: Flags, time: int ::
      ValidScript(l, script) && p == WorkerPass(l, mtuElems, script, stop, flags, time)
  }

  /** The passes and datagrams of a run: datagram k carries pass k under sequence number first + k,
      and the device's streams have grown from before to produced by what the passes read. */
  ghost predicate RunOf(l: Layout, passes: seq<Pass>, sent: seq<seq<byte>>, first: int,
                        before: seq<seq<byte>>, produced: seq<seq<byte>>)
    requires l.Valid() && |before| == l.numChans
    decreases |passes|
  {
    if passes == [] then sent == [] && produced == before
    else
      && |sent| == |passes|
      && var n, p := |passes| - 1, passes[|passes| - 1];
         && Carries(l, sent[n], p, Words.Wire((first + n) % U64))
         && exists mid :: |mid| == l.numChans && RunOf(l, passes[..n], sent[..n], first, before, mid)
                          && produced == Appended(mid, p.Read(l.numChans))
  }

  lemma RunStep(l: Layout, passes: seq<Pass>, sent: seq<seq<byte>>, first: int,
                before: seq<seq<byte>>, produced: seq<seq<byte>>, p: Pass, d: seq<byte>, seqno: int)
    requires l.Valid() && |before| == |produced| == l.numChans
    requires RunOf(l, passes, sent, first, before, produced) && |sent| == |passes|
    requires seqno == Words.Wire((first + |passes|) % U64) && Carries(l, d, p, seqno)
    ensures |p.first.Data(l.numChans)| == |p.second.Data(l.numChans)| == l.numChans
    ensures RunOf(l, passes + [p], sent + [d], first, before, Appended(produced, p.Read(l.numChans)))
  {
    assert (passes + [p])[..|passes|] == passes && (sent + [d])[..|passes|] == sent;
  }

  /** The pieces are those of the datagrams, one after the other. */
  ghost predicate SentAllAs(pieces: seq<seq<byte>>, sent: seq<seq<byte>>, datagram: bool) {
    Flatten(pieces) == Flatten(sent) && NonEmptyPieces(pieces) && (datagram ==> pieces == AllPackets(sent))
  }

  /** A run together with what it left in the socket and in the sequence counter. */
  ghost predicate Logged(l: Layout, passes: seq<Pass>, sent: seq<seq<byte>>, pieces: seq<seq<byte>>,
                         first: int, before: seq<seq<byte>>, produced: seq<seq<byte>>, lastSend: int, datagram: bool)
    requires l.Valid() && |before| == l.numChans
  {
    && |sent| == |passes| && RunOf(l, passes, sent, first, before, produced)
    && SentAllAs(pieces, sent, datagram)
    && (datagram && l.xferSize <= BUFFMAX ==> pieces == sent)
    && lastSend == (first + |passes|) % U64
  }

  lemma CountOf(first: int, n: nat)
    ensures ((first + n) % U64 + 1) % U64 == (first + (n + 1)) % U64
  {
  }

  lemma LogStep(l: Layout, passes: seq<Pass>, sent: seq<seq<byte>>, pieces: seq<seq<byte>>,
                first: int, before: seq<seq<byte>>, produced: seq<seq<byte>>, lastSend: int, datagram: bool,
                p: Pass, d: seq<byte>, seqno: int, more: seq<seq<byte>>)
    requires l.Valid() && |before| == |produced| == l.numChans
    requires Logged(l, passes, sent, pieces, first, before, produced, lastSend, datagram)
    requires seqno == Words.Wire(lastSend) && Carries(l, d, p, seqno) && p.ret <= l.BuffSize()
    requires SentAs(Link(l, datagram), d, more)
    ensures Logged(l, passes + [p], sent + [d], pieces + more, first, before,
                   Appended(produced, p.Read(l.numChans)), Words.IncSend(lastSend), datagram)
  {
    hide RunOf, Carries;
    CountOf(first, |passes|);
    RunStep(l, passes, sent, first, before, produced, p, d, seqno);
    LogPieces(l, sent, pieces, datagram, p, d, seqno, more);
    LogJoin(l, passes + [p], sent + [d], pieces + more, first, before, Appended(produced, p.Read(l.numChans)),
            Words.IncSend(lastSend), datagram);
  }

  lemma LogPieces(l: Layout, sent: seq<seq<byte>>, pieces: seq<seq<byte>>, datagram: bool,
                  p: Pass, d: seq<byte>, seqno: int, more: seq<seq<byte>>)
    requires l.Valid() && Carries(l, d, p, seqno) && p.ret <= l.BuffSize()
    requires SentAllAs(pieces, sent, datagram) && (datagram && l.xferSize <= BUFFMAX ==> pieces == sent)
    requires SentAs(Link(l, datagram), d, more)
    ensures SentAllAs(pieces + more, sent + [d], datagram)
    ensures datagram && l.xferSize <= BUFFMAX ==> pieces + more == sent + [d]
  {
    hide Carries, Flatten, Packets;
    CarriesSize(l, d, p, seqno);
    PiecesStep(pieces, sent, more, d);
    assert (sent + [d])[..|sent|] == sent;
  }

  lemma CarriesSize(l: Layout, d: seq<byte>, p: Pass, seqno: int)
    requires l.Valid() && Carries(l, d, p, seqno) && p.ret <= l.BuffSize()
    ensures HEADER_SIZE <= |d| <= l.xferSize
  {
    if p.ret >= 0 {
      RegionsFit(l, 0, p.ret);
    }
  }

  lemma NothingLogged(l: Layout, first: int, produced: seq<seq<byte>>, datagram: bool)
    requires l.Valid() && |produced| == l.numChans && 0 <= first < U64
    ensures Logged(l, [], [], [], first, produced, produced, first, datagram)
    ensures NO_FLAGS.Valid() && Fits(8, 0)
  {
    PowersOf256();
  }

  lemma LogParts(l: Layout, passes: seq<Pass>, sent: seq<seq<byte>>, pieces: seq<seq<byte>>,
                 first: int, before: seq<seq<byte>>, produced: seq<seq<byte>>, lastSend: int, datagram: bool)
    requires l.Valid() && |before| == l.numChans
    requires Logged(l, passes, sent, pieces, first, before, produced, lastSend, datagram)
    ensures |sent| == |passes| && RunOf(l, passes, sent, first, before, produced)
    ensures SentAllAs(pieces, sent, datagram)
    ensures datagram && l.xferSize <= BUFFMAX ==> pieces == sent
  {
  }

  lemma LogJoin(l: Layout, passes: seq<Pass>, sent: seq<seq<byte>>, pieces: seq<seq<byte>>,
                first: int, before: seq<seq<byte>>, produced: seq<seq<byte>>, lastSend: int, datagram: bool)
    requires l.Valid() && |before| == l.numChans
    requires |sent| == |passes| && RunOf(l, passes, sent, first, before, produced)
    requires SentAllAs(pieces, sent, datagram)
    requires datagram && l.xferSize <= BUFFMAX ==> pieces == sent
    requires lastSend == (first + |passes|) % U64
    ensures Logged(l, passes, sent, pieces, first, before, produced, lastSend, datagram)
  {
  }

  lemma PiecesStep(pieces: seq<seq<byte>>, sent: seq<seq<byte>>, more: seq<seq<byte>>, d: seq<byte>)
    requires Flatten(pieces) == Flatten(sent) && Flatten(more) == d && d != []
    ensures Flatten(pieces + more) == Flatten(sent + [d])
    ensures pieces == sent && more == Packets(d) && |d| <= BUFFMAX ==> pieces + more == sent + [d]
  {
    FlattenAppend(pieces, more);
    FlattenOne(sent, d);
    PacketIntact(d);
  }

  /** The datagram d of pass p: its header says what the pass handed over, and its channels hold what was read. */
  ghost predicate Carries(l: Layout, d: seq<byte>, p: Pass, seqno: int)
    requires l.Valid()
  {
    && HEADER_SIZE <= |d| == (if p.ret < 0 then HEADER_SIZE else l.Bytes(p.ret))
    && |p.first.Data(l.numChans)| == |p.second.Data(l.numChans)| == l.numChans
    && 0 <= seqno < U32 && Decode(d) == Header(|d|, seqno, p.ret, p.flags, p.time)
    && (p.ret >= 0 ==> HoldsChannels(l, d, p.ret, p.Read(l.numChans)))
  }

  lemma SentCarries(l: Layout, buf: seq<byte>, p: Pass, h: Header, after: seq<byte>)
    requires l.Valid() && |buf| == l.xferSize < 0x8000_0000 && p.ret <= l.BuffSize()
    requires h.bytes == (if p.ret < 0 then HEADER_SIZE else l.Bytes(p.ret)) && 0 <= h.sequence < U32
    requires h == Header(h.bytes, h.sequence, p.ret, p.flags, p.time) && p.flags.Valid() && Fits(8, p.time)
    requires p.ret < 0 ==> Fits(4, p.ret)
    requires |p.first.Data(l.numChans)| == |p.second.Data(l.numChans)| == l.numChans
    requires p.ret >= 0 ==> HoldsChannels(l, buf, p.ret, p.Read(l.numChans))
    requires after == Written(buf, 0, Encode(h))
    ensures h.bytes <= |after| && Carries(l, after[..h.bytes], p, h.sequence)
  {
    SentInRange(l, p.ret);
    HeaderOfSent(buf, h);
    if p.ret >= 0 {
      SentChannels(l, buf, Encode(h), p.ret, p.Read(l.numChans));
    }
  }

  method IncrementBuffs(buffs: seq<nat>, numElems: nat, elemSize: nat) returns (r: seq<nat>)
    ensures |r| == |buffs| && forall i :: 0 <= i < |r| ==> r[i] == buffs[i] + numElems * elemSize
  {
    r := buffs;
    for k := 0 to |buffs|
      invariant |r| == |buffs|
      invariant forall i :: 0 <= i < |r| ==> r[i] == if i < k then buffs[i] + numElems * elemSize else buffs[i]
    {
      r := r[k := r[k] + numElems * elemSize];
    }
  }

  lemma SeparateSmaller(offs: seq<nat>, n: nat, m: nat, es: nat, size: nat)
    requires n <= m && Separate(offs, m * es, size)
    ensures Separate(offs, n * es, size)
  {
    MulMonotone(n, m, es);
  }

  lemma RestSeparate(l: Layout, buffs: seq<nat>, next: seq<nat>, n: nat)
    requires l.Valid() && n <= l.BuffSize() && |buffs| == |next|
    requires Separate(buffs, l.BuffSize() * l.elemSize, l.xferSize)
    requires forall i :: 0 <= i < |next| ==> next[i] == buffs[i] + n * l.elemSize
    ensures Separate(next, (l.BuffSize() - n) * l.elemSize, l.xferSize)
  {
    Distribute(l.elemSize, l.BuffSize(), n);
  }

  lemma OneRead(l: Layout, b0: seq<byte>, b1: seq<byte>, p: Pass, buffs: seq<nat>)
    requires l.Valid() && |b0| == |b1| == l.xferSize && |buffs| == l.numChans
    requires forall i :: 0 <= i < |buffs| ==> buffs[i] == l.Offset(i)
    requires p.first.Valid(l) && p.second == Timeout && 0 <= p.ret <= l.BuffSize()
    requires p.ret == if p.first.Samples? then p.first.count else 0
    requires if p.first.Samples? then Scattered(b0, b1, buffs, p.first.data) else b0 == b1
    ensures HoldsChannels(l, b1, p.ret, p.Read(l.numChans))
  {
    AppendNothing(p.first.Data(l.numChans));
    forall i | 0 <= i < l.numChans
      ensures l.Offset(i) + p.ret * l.elemSize <= |b1| && l.Channel(b1, i, p.ret) == p.Read(l.numChans)[i]
    {
      RegionsFit(l, i, p.ret);
    }
  }

  lemma TwoReads(l: Layout, b0: seq<byte>, b1: seq<byte>, b2: seq<byte>, p: Pass, buffs: seq<nat>, next: seq<nat>)
    requires l.Valid() && |b0| == |b1| == |b2| == l.xferSize && |buffs| == |next| == l.numChans
    requires p.first.Valid(l) && p.second.Valid(l) && p.first.Samples? && !p.second.Fault?
    requires 0 <= p.ret <= l.BuffSize()
    requires p.ret == p.first.count + if p.second.Samples? then p.second.count else 0
    requires forall i :: 0 <= i < |buffs| ==> buffs[i] == l.Offset(i)
    requires forall i :: 0 <= i < |buffs| ==> next[i] == buffs[i] + p.first.count * l.elemSize
    requires Scattered(b0, b1, buffs, p.first.data)
    requires if p.second.Samples? then Scattered(b1, b2, next, p.second.data) else b1 == b2
    ensures HoldsChannels(l, b2, p.ret, p.Read(l.numChans))
  {
    hide Layout.BuffSize, Layout.Offset, Layout.Bytes, HoldsChannels, Scattered, Separate;
    var es, n, m := l.elemSize, p.first.count, p.ret - p.first.count;
    var x, y := n * es, m * es;
    assert p.ret * es == x + y by {
      Distribute(es, n, m);
    }
    OffsetsSeparate(l, buffs);
    SeparateSmaller(buffs, p.ret, l.BuffSize(), es, l.xferSize);
    ReplySize(l, p.first);
    ReplySize(l, p.second);
    TwoPieces(b0, b1, b2, p.first.data, p.second.Data(l.numChans), p.second.Samples?, x, y, buffs, next);
    HoldsWidth(l, b2, p.ret, x + y, p.Read(l.numChans), buffs);
  }

  lemma TwoPieces(b0: seq<byte>, b1: seq<byte>, b2: seq<byte>, d1: seq<seq<byte>>, d2: seq<seq<byte>>, more: bool,
                  x: nat, y: nat, offs: seq<nat>, next: seq<nat>)
    requires Separate(offs, x + y, |b0|) && |next| == |offs| == |d1| == |d2|
    requires forall k :: 0 <= k < |offs| ==> next[k] == offs[k] + x && |d1[k]| == x && |d2[k]| == y
    requires Scattered(b0, b1, offs, d1)
    requires if more then Scattered(b1, b2, next, d2) else b1 == b2 && y == 0
    ensures |b2| == |b0|
    ensures forall i :: 0 <= i < |offs| ==> b2[offs[i]..offs[i] + (x + y)] == Appended(d1, d2)[i]
  {
    if more {
      forall i | 0 <= i < |offs| ensures b2[offs[i]..offs[i] + (x + y)] == Appended(d1, d2)[i] {
        ScatteredTwice(b0, b1, b2, d1, d2, x, y, offs, next, i);
      }
    }
  }

  /** A device that fills the buffer at once makes the worker send a full datagram. */
  lemma FullPass(l: Layout) returns (p: Pass)
    requires l.Valid() && l.xferSize < 0x8000_0000 && l.BuffSize() > 0
    ensures IsPass(l, l.BuffSize(), p) && Carries(l, FullDatagram(l), p, 0)
    ensures p.Forwarded(l.numChans) == Zeros(l, l.BuffSize() * l.elemSize)
  {
    var b, data := l.BuffSize(), Zeros(l, l.BuffSize() * l.elemSize);
    var got := Samples(b, data, NO_FLAGS, 0);
    PowersOf256();
    assert got.Valid(l);
    p := WorkerPass(l, b, [got], [false], NO_FLAGS, 0);
    assert Answer(l, [got], b) == got;
    assert p == Pass(got, Timeout, b, NO_FLAGS, 0, [], []);
    AppendNothing(data);
    FullHoldsZeros(l);
    FullHeader(l);
  }
}
