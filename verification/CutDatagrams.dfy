/** The flow control over a datagram link whose full datagrams are cut up into packets. The receiver refuses the first
    packet of such a datagram and reads samples of the later ones as headers, so the limits that FlowControl proves of
    other links fail here: a sender can be blocked for good although the network lost nothing, believe any sequence
    number acknowledged, and have any number of bytes in flight. All of it in the machine's 32-bit words. */
module CutDatagrams {
  import opened Arithmetic
  import opened Bytes
  import opened Sequences
  import opened Sockets
  import opened FlowControl
  import opened BufferLayout
  import opened StreamFlags
  import opened StreamEndpoint
  import opened Datagrams

  // ---------- What the later packets may look like ----------

  /** Later packets that are all refused. */
  function Refusals(bytes: nat): (tail: seq<Misread>)
    ensures Readable(bytes, tail)
    decreases bytes
  {
    if bytes == 0 then [] else [Misread(0, true)] + Refusals(bytes - Min(bytes, BUFFMAX))
  }

  /** The first one is read as a header with sequence number q, the others are refused. */
  function Claims(bytes: nat, q: nat): (tail: seq<Misread>)
    requires bytes >= HEADER_SIZE && q < U32
    ensures Readable(bytes, tail)
  {
    [Misread(q, false)] + Refusals(bytes - Min(bytes, BUFFMAX))
  }

  lemma {:induction false} RefusalsRefused(bytes: nat)
    ensures |LaterPackets(bytes, Refusals(bytes))| == PacketCount(bytes)
    ensures forall i :: 0 <= i < PacketCount(bytes) ==> LaterPackets(bytes, Refusals(bytes))[i].refused
    decreases bytes
  {
    if bytes > 0 {
      RefusalsRefused(bytes - Min(bytes, BUFFMAX));
    }
  }

  lemma {:induction false} LaterWire(bytes: nat, tail: seq<Misread>)
    requires Readable(bytes, tail)
    ensures WireBytes(LaterPackets(bytes, tail)) == bytes + PROTO_HEADER_SIZE * PacketCount(bytes)
    decreases bytes
  {
    if bytes > 0 {
      var n := Min(bytes, BUFFMAX);
      LaterWire(bytes - n, tail[1..]);
      assert LaterPackets(bytes, tail)[1..] == LaterPackets(bytes - n, tail[1..]);
    }
  }

  /** A cut datagram's packets occupy its bytes and a network header each. */
  lemma SentWire(c: Config, lastSend: int, tail: seq<Misread>)
    requires c.Valid() && !c.WholePackets() && Readable(c.Later(c.full), tail)
    ensures WireBytes(Sent(Words, c, lastSend, c.full, tail)) == FullWire(c)
  {
    var ps := Sent(Words, c, lastSend, c.full, tail);
    LaterWire(c.full - BUFFMAX, tail);
    assert ps[1..] == LaterPackets(c.full - BUFFMAX, tail);
  }

  lemma NoWire()
    ensures WireBytes([]) == 0
  {
  }

  lemma {:induction false} WireAppend(a: seq<Packet>, b: seq<Packet>)
    ensures WireBytes(a + b) == WireBytes(a) + WireBytes(b)
  {
    if a == [] {
      assert a + b == b;
    } else {
      WireAppend(a[1..], b);
      assert (a + b)[1..] == a[1..] + b;
    }
  }

  // ---------- Runs ----------

  /** Runs end to end. */
  lemma Then(n: Counting, c: Config, s: State, x: seq<Action>, t: State, y: seq<Action>, u: State)
    requires c.Valid() && Run(n, c, s, x) == Reached(t) && Run(n, c, t, y) == Reached(u)
    ensures Run(n, c, s, x + y) == Reached(u)
    ensures Lossless(x) && Lossless(y) ==> Lossless(x + y)
  {
    RunAppend(n, c, s, x, y);
  }

  lemma One(n: Counting, c: Config, s: State, a: Action)
    requires c.Valid() && Enabled(n, c, s, a)
    ensures Run(n, c, s, [a]) == Reached(Next(n, c, s, a))
  {
    assert [a][..0] == [];
    assert Run(n, c, s, []) == Reached(s);
  }

  lemma {:induction false} NoLosses(run: seq<Action>)
    requires Lossless(run)
    ensures CountLosses(run) == 0
  {
    if run != [] {
      NoLosses(run[..|run| - 1]);
    }
  }

  /** The sender after sent datagrams, when the first acked of them are acknowledged. */
  function Sender(c: Config, sent: nat, acked: nat): Seqs
    requires c.Valid()
  {
    Seqs(sent % U64, acked % U32, c.MaxInFlight(), true, 0)
  }

  lemma WindowInWords(c: Config)
    requires c.Valid()
    ensures c.MaxInFlight() * 72 <= c.window && c.MaxInFlight() < 0x200_0000
  {
    MulMonotone(72, c.mtu, c.MaxInFlight());
  }

  lemma SenderOpen(c: Config, sent: nat, acked: nat)
    requires c.Valid() && 0 <= sent - acked < U32
    ensures Sender(c, sent, acked).lastSend == sent % U64
    ensures Words.Diff(Sender(c, sent, acked).lastSend, Sender(c, sent, acked).lastRecv) == sent - acked
    ensures Sender(c, sent, acked).Blocked(Words) <==> sent - acked >= c.MaxInFlight()
    ensures Sender(c, sent, acked).DatagramSent(Words) == Sender(c, sent + 1, acked)
  {
    NarrowDiff(sent, acked, sent % U64, acked % U32);
    NarrowAfter(sent);
  }

  function Sends(c: Config, tail: seq<Misread>): seq<Action> {
    [AcquireSend] + [ReleaseSend(c.full, tail)]
  }

  /** An open window lets a full datagram out. */
  lemma SendFull(c: Config, s: State, sent: nat, acked: nat, tail: seq<Misread>)
    requires c.Valid() && 0 <= sent - acked < c.MaxInFlight() && s.tx == Sender(c, sent, acked) && s.held == 0
    requires Readable(c.Later(c.full), tail)
    ensures Run(Words, c, s, Sends(c, tail))
         == Reached(s.(tx := Sender(c, sent + 1, acked), data := s.data + Sent(Words, c, sent % U64, c.full, tail)))
    ensures Lossless(Sends(c, tail))
  {
    hide Sender, Run, Sent, Seqs.Blocked, Seqs.DatagramSent, Readable, Config.Later;
    WindowInWords(c);
    SenderOpen(c, sent, acked);
    var t := s.(held := 1);
    One(Words, c, s, AcquireSend);
    One(Words, c, t, ReleaseSend(c.full, tail));
    Then(Words, c, s, [AcquireSend], t, [ReleaseSend(c.full, tail)], Next(Words, c, t, ReleaseSend(c.full, tail)));
  }

  /** Refused packets leave no trace but themselves. */
  lemma {:induction false} RefuseMany(n: Counting, c: Config, s: State, k: nat)
    requires c.Valid() && k <= |s.data| && forall i :: 0 <= i < k ==> s.data[i].refused
    ensures Run(n, c, s, Repeat(AcquireRecv, k))
         == Reached(if k == 0 then s else s.(data := s.data[k..], rx := s.rx.PacketRefused()))
    ensures Lossless(Repeat(AcquireRecv, k))
  {
    if k > 0 {
      RefuseMany(n, c, s, k - 1);
      var t := if k == 1 then s else s.(data := s.data[k - 1..], rx := s.rx.PacketRefused());
      One(n, c, t, AcquireRecv);
      Then(n, c, s, Repeat(AcquireRecv, k - 1), t, [AcquireRecv], Next(n, c, t, AcquireRecv));
    }
  }

  // ---------- Everything refused: a deadlock without a loss ----------

  /** m datagrams were sent, and the receiver refused every packet. */
  function Stalled(c: Config, m: nat): State
    requires c.Valid()
  {
    State(Sender(c, m, 0), Seqs(0, 0, c.MaxInFlight(), m > 0, c.MaxInFlight() / NUM_BUFFS), 0, [], [], 0)
  }

  function RefusedRun(c: Config, m: nat): seq<Action> {
    if m == 0 then [RecvAck]
    else
      RefusedRun(c, m - 1) + (Sends(c, Refusals(c.Later(c.full)))
                              + Repeat(AcquireRecv, 1 + PacketCount(c.Later(c.full))))
  }

  lemma StartsStalled(n: Counting, c: Config)
    requires c.Valid()
    ensures Run(n, c, Init(c), [RecvAck]) == Reached(Stalled(c, 0))
  {
    One(n, c, Init(c), RecvAck);
  }

  lemma OneRefused(c: Config, m: nat)
    requires c.Valid() && !c.WholePackets() && m < c.MaxInFlight()
    ensures var run := Sends(c, Refusals(c.Later(c.full))) + Repeat(AcquireRecv, 1 + PacketCount(c.Later(c.full)));
            Run(Words, c, Stalled(c, m), run) == Reached(Stalled(c, m + 1)) && Lossless(run)
  {
    hide Run, Sends, Repeat, Sender, LaterPackets, PacketCount, Refusals;
    var tail, k := Refusals(c.Later(c.full)), 1 + PacketCount(c.Later(c.full));
    var ps := Sent(Words, c, m % U64, c.full, tail);
    var t := Stalled(c, m).(tx := Sender(c, m + 1, 0), data := ps);
    WindowInWords(c);
    SendFull(c, Stalled(c, m), m, 0, tail);
    RefusalsRefused(c.Later(c.full));
    assert [] + ps == ps;
    RefuseMany(Words, c, t, k);
    assert ps[k..] == [];
    Then(Words, c, Stalled(c, m), Sends(c, tail), t, Repeat(AcquireRecv, k), Stalled(c, m + 1));
  }

  lemma {:induction false} RefusedRunReaches(c: Config, m: nat)
    requires c.Valid() && !c.WholePackets() && m <= c.MaxInFlight()
    ensures Run(Words, c, Init(c), RefusedRun(c, m)) == Reached(Stalled(c, m)) && Lossless(RefusedRun(c, m))
  {
    hide Run, Stalled;
    StartsStalled(Words, c);
    if m > 0 {
      RefusedRunReaches(c, m - 1);
      OneRefused(c, m - 1);
      Then(Words, c, Init(c), RefusedRun(c, m - 1), Stalled(c, m - 1),
           Sends(c, Refusals(c.Later(c.full))) + Repeat(AcquireRecv, 1 + PacketCount(c.Later(c.full))), Stalled(c, m));
    }
  }

  /** A window full of datagrams that are all refused: nothing is lost, everything is settled, and the sender is
      blocked, for good by FlowControl's DeadlockIsFinal. */
  lemma StallingRun(c: Config) returns (run: seq<Action>)
    requires c.Valid() && !c.WholePackets() && c.MaxInFlight() >= 1
    ensures Lossless(run) && CountLosses(run) == 0 && Run(Words, c, Init(c), run).Reached?
    ensures var s := Run(Words, c, Init(c), run).s;
            Settled(s) && s.held == 0 && Basics(c, s) && s.tx.Blocked(Words)
  {
    run := RefusedRun(c, c.MaxInFlight());
    hide Run, Basics, RefusedRun, Seqs.Blocked;
    WindowInWords(c);
    RefusedRunReaches(c, c.MaxInFlight());
    SenderOpen(c, c.MaxInFlight(), 0);
    NoLosses(run);
    BasicsRun(Words, c, run);
  }

  /** If the run ends settled, and lost no more than the window leaves room for, then the sender may go on. */
  ghost predicate Progresses(c: Config, run: seq<Action>)
    requires c.Valid()
  {
    match Run(Words, c, Init(c), run)
    case Stuck => true
    case Reached(s) => Settled(s) && CountLosses(run) <= c.MaxInFlight() - c.AckEvery() ==> !s.tx.Blocked(Words)
  }

  lemma WholeProgresses(c: Config, run: seq<Action>)
    requires c.Valid() && c.WholePackets() && c.MaxInFlight() >= 1
    ensures Progresses(c, run)
  {
    WordsRefineUnbounded(c, run);
    if Run(Words, c, Init(c), run).Reached? && Settled(Run(Words, c, Init(c), run).s)
       && CountLosses(run) <= c.MaxInFlight() - c.AckEvery() {
      InvRun(c, run);
      MachineSettled(c, Run(Unbounded, c, Init(c), run).s);
      NoDeadlock(c, run);
    }
  }

  lemma MachineSettled(c: Config, s: State)
    requires c.Valid() && Inv(c, s) && Settled(Machine(s))
    ensures Settled(s)
  {
    WindowInWords(c);
    NarrowEqual(s.tx.lastRecv, s.rx.lastSend);
    assert |DataWords(s.data)| == |s.data| && |AckWords(s.acks)| == |s.acks|;
  }

  /** There is no deadlock, on any run, exactly when datagrams stay whole. */
  lemma ProgressExactly(c: Config)
    requires c.Valid() && c.MaxInFlight() >= 1
    ensures (forall run :: Progresses(c, run)) <==> c.WholePackets()
  {
    if c.WholePackets() {
      forall run ensures Progresses(c, run) {
        WholeProgresses(c, run);
      }
    } else {
      var run := StallingRun(c);
      assert !Progresses(c, run);
    }
  }

  /** A blocked sender has something to wait for. */
  ghost predicate Hopeful(c: Config, run: seq<Action>)
    requires c.Valid()
  {
    match Run(Words, c, Init(c), run)
    case Stuck => true
    case Reached(s) => s.tx.Blocked(Words) ==> s.data != [] || s.acks != []
  }

  lemma WholeHopeful(c: Config, run: seq<Action>)
    requires c.Valid() && c.WholePackets() && c.MaxInFlight() >= 1 && Lossless(run)
    ensures Hopeful(c, run)
  {
    WordsRefineUnbounded(c, run);
    if Run(Unbounded, c, Init(c), run).Reached? {
      LosslessRun(c, run);
      var s := Run(Unbounded, c, Init(c), run).s;
      assert |DataWords(s.data)| == |s.data| && |AckWords(s.acks)| == |s.acks|;
    }
  }

  /** On runs without losses a blocked sender has something to wait for, exactly when datagrams stay whole. */
  lemma LosslessExactly(c: Config)
    requires c.Valid() && c.MaxInFlight() >= 1
    ensures (forall run :: Lossless(run) ==> Hopeful(c, run)) <==> c.WholePackets()
  {
    if c.WholePackets() {
      forall run | Lossless(run) ensures Hopeful(c, run) {
        WholeHopeful(c, run);
      }
    } else {
      var run := StallingRun(c);
      assert Lossless(run) && !Hopeful(c, run);
    }
  }

  // ---------- A packet read as a header: any sequence number acknowledged ----------

  /** Full datagrams are cut up, and their second packets have room for a header. */
  ghost predicate Misleading(c: Config) {
    c.Valid() && !c.WholePackets() && c.full >= BUFFMAX + HEADER_SIZE && c.MaxInFlight() >= 1
  }

  /** Takes in one datagram whose second packet is read as a header, and the ACK that it causes. */
  function Consume(c: Config): seq<Action>
    requires !c.WholePackets()
  {
    [AcquireRecv] + ([AcquireRecv] + (Repeat(AcquireRecv, PacketCount(c.full - BUFFMAX) - 1) + [RecvAck]))
  }

  /** The state after that. */
  function Misled(n: Counting, c: Config, s: State, q: nat, more: seq<Packet>): State
    requires c.Valid()
  {
    var next := n.After(q);
    State(s.tx.AckReceived(next, c.MaxInFlight()), Seqs(next, next, c.MaxInFlight(), true, s.rx.trigger), s.held,
          more, [], s.notices + if s.rx.OutOfOrder(n, q) then 1 else 0)
  }

  /** A full datagram behind whose second packet are only refused ones. */
  lemma ClaimsPackets(n: Counting, c: Config, lastSend: int, q: nat, more: seq<Packet>)
    requires c.Valid() && !c.WholePackets() && c.full >= BUFFMAX + HEADER_SIZE && q < U32
    ensures var later := c.full - BUFFMAX;
            var rest := LaterPackets(later - Min(later, BUFFMAX), Refusals(later - Min(later, BUFFMAX)));
            && |rest| == PacketCount(later) - 1 && (forall i :: 0 <= i < |rest| ==> rest[i].refused)
            && Sent(n, c, lastSend, c.full, Claims(later, q)) + more
                 == [Packet(n.Wire(lastSend), BUFFMAX, true)]
                    + ([Packet(q, Min(later, BUFFMAX), false)] + (rest + more))
  {
    var later := c.full - BUFFMAX;
    RefusalsRefused(later - Min(later, BUFFMAX));
    var tail := Claims(later, q);
    assert tail[1..] == Refusals(later - Min(later, BUFFMAX));
  }

  lemma TakesClaim(n: Counting, c: Config, s: State, q: nat, size: nat, more: seq<Packet>)
    requires c.Valid() && q < U32 && s.rx.maxInFlight == c.MaxInFlight() && s.acks == []
    requires s.data == [Packet(q, size, false)] + more
    requires n.Diff(n.After(q), s.rx.lastSend) >= s.rx.trigger
    ensures var next := n.After(q);
            Run(n, c, s, [AcquireRecv])
              == Reached(s.(rx := Seqs(next, next, c.MaxInFlight(), true, s.rx.trigger), data := more,
                            acks := [Ack(next, c.MaxInFlight())],
                            notices := s.notices + if s.rx.OutOfOrder(n, q) then 1 else 0))
  {
    One(n, c, s, AcquireRecv);
    NarrowAfter(q + 1);
    assert s.data[1..] == more;
  }

  lemma ConsumeReaches(n: Counting, c: Config, s: State, lastSend: int, q: nat, more: seq<Packet>)
    requires c.Valid() && !c.WholePackets() && c.full >= BUFFMAX + HEADER_SIZE && q < U32
    requires s.rx.maxInFlight == c.MaxInFlight() && s.acks == []
    requires s.data == Sent(n, c, lastSend, c.full, Claims(c.full - BUFFMAX, q)) + more
    requires n.Diff(n.After(q), s.rx.lastSend) >= s.rx.trigger
    ensures Run(n, c, s, Consume(c)) == Reached(Misled(n, c, s, q, more)) && Lossless(Consume(c))
  {
    hide Run, Sent, LaterPackets, Repeat, Config.MaxInFlight, Claims, Refusals, PacketCount;
    var later := c.full - BUFFMAX;
    var rest := LaterPackets(later - Min(later, BUFFMAX), Refusals(later - Min(later, BUFFMAX)));
    var p0, p1 := Packet(n.Wire(lastSend), BUFFMAX, true), Packet(q, Min(later, BUFFMAX), false);
    var k, next := PacketCount(later) - 1, n.After(q);
    ClaimsPackets(n, c, lastSend, q, more);
    var s1 := s.(data := [p1] + (rest + more), rx := s.rx.PacketRefused());
    assert s.data[1..] == s1.data;
    One(n, c, s, AcquireRecv);
    TakesClaim(n, c, s1, q, p1.bytes, rest + more);
    var s2 := s1.(rx := Seqs(next, next, c.MaxInFlight(), true, s.rx.trigger), data := rest + more,
                  acks := [Ack(next, c.MaxInFlight())], notices := Misled(n, c, s, q, more).notices);
    RefuseMany(n, c, s2, k);
    assert (rest + more)[k..] == more;
    var s3 := s2.(data := more);
    assert k == 0 ==> rest + more == more;
    One(n, c, s3, RecvAck);
    assert s3.acks[1..] == [];
    Then(n, c, s2, Repeat(AcquireRecv, k), s3, [RecvAck], Misled(n, c, s, q, more));
    Then(n, c, s1, [AcquireRecv], s2, Repeat(AcquireRecv, k) + [RecvAck], Misled(n, c, s, q, more));
    Then(n, c, s, [AcquireRecv], s1, [AcquireRecv] + (Repeat(AcquireRecv, k) + [RecvAck]), Misled(n, c, s, q, more));
  }

  lemma FirstClaim(n: Counting, q: nat)
    requires q < U32
    ensures n.Diff(n.After(q), 0) == n.After(q)
  {
  }

  lemma SendFirst(n: Counting, c: Config, tail: seq<Misread>)
    requires c.Valid() && c.MaxInFlight() >= 1 && Readable(c.Later(c.full), tail)
    ensures Run(n, c, Stalled(c, 0), Sends(c, tail))
         == Reached(Stalled(c, 0).(tx := Sender(c, 1, 0), data := Sent(n, c, 0, c.full, tail)))
    ensures Lossless(Sends(c, tail))
  {
    hide Run, Sent, Readable, Config.Later, Config.MaxInFlight;
    var s := Stalled(c, 0);
    var t := s.(held := 1);
    One(n, c, s, AcquireSend);
    One(n, c, t, ReleaseSend(c.full, tail));
    assert [] + Sent(n, c, 0, c.full, tail) == Sent(n, c, 0, c.full, tail);
    Then(n, c, s, [AcquireSend], t, [ReleaseSend(c.full, tail)], Next(n, c, t, ReleaseSend(c.full, tail)));
  }

  lemma OneMisled(n: Counting, c: Config, s: State, q: nat)
    requires c.Valid() && s.tx == Sender(c, 1, 0) && s.held == 0
    ensures var t := Misled(n, c, s, q, []);
            t.tx == Seqs(1, n.After(q), c.MaxInFlight(), true, 0) && Settled(t) && t.held == 0 && t.data == []
  {
  }

  /** One datagram, whose second packet is read as a header with sequence number q. */
  function MisleadingRun(c: Config, q: nat): seq<Action>
    requires Misleading(c) && q < U32
  {
    [RecvAck] + (Sends(c, Claims(c.Later(c.full), q)) + Consume(c))
  }

  lemma MisledReaches(n: Counting, c: Config, q: nat)
    requires Misleading(c) && q < U32 && n.After(q) >= c.MaxInFlight() / NUM_BUFFS
    ensures Lossless(MisleadingRun(c, q)) && Run(n, c, Init(c), MisleadingRun(c, q)).Reached?
    ensures var s := Run(n, c, Init(c), MisleadingRun(c, q)).s;
            s.tx == Seqs(1, n.After(q), c.MaxInFlight(), true, 0) && Settled(s) && s.held == 0 && s.data == []
  {
    hide Run, Sent, Sends, Consume, Config.MaxInFlight, Claims, Counting.Diff, Counting.After, Misled, Sender;
    var s0, tail := Stalled(c, 0), Claims(c.Later(c.full), q);
    var s1 := s0.(tx := Sender(c, 1, 0), data := Sent(n, c, 0, c.full, tail));
    StartsStalled(n, c);
    SendFirst(n, c, tail);
    assert s1.data == s1.data + [];
    FirstClaim(n, q);
    ConsumeReaches(n, c, s1, 0, q, []);
    var s2 := Misled(n, c, s1, q, []);
    OneMisled(n, c, s1, q);
    Then(n, c, s0, Sends(c, tail), s1, Consume(c), s2);
    Then(n, c, Init(c), [RecvAck], s0, Sends(c, tail) + Consume(c), s2);
  }

  /** One datagram is enough to make the sender believe any sequence number acknowledged that is not less than the ACK
      interval; nothing is lost, everything is settled, and the sender is blocked unless what it believes is within a
      window of the truth. */
  lemma MisledRun(c: Config, q: nat) returns (run: seq<Action>)
    requires Misleading(c) && q < U32 && Words.After(q) >= c.MaxInFlight() / NUM_BUFFS
    ensures Lossless(run) && Run(Words, c, Init(c), run).Reached?
    ensures var s := Run(Words, c, Init(c), run).s;
            && Settled(s) && s.held == 0 && s.tx.lastSend == 1 && s.tx.lastRecv == Words.After(q)
            && (s.tx.Blocked(Words) <==> (1 - Words.After(q)) % U32 >= c.MaxInFlight())
  {
    hide Run, Config.MaxInFlight;
    MisledReaches(Words, c, q);
    WrappedDiff(Words.After(q));
    run := MisleadingRun(c, q);
  }

  lemma WrappedDiff(next: nat)
    requires next < U32
    ensures Words.Diff(1, next) == (1 - next) % U32
  {
  }

  /** The machine does what unbounded counters would. */
  ghost predicate Agrees(c: Config, run: seq<Action>)
    requires c.Valid()
  {
    match Run(Unbounded, c, Init(c), run)
    case Stuck => Run(Words, c, Init(c), run) == Stuck
    case Reached(s) =>
      && Run(Words, c, Init(c), run) == Reached(Machine(s))
      && Machine(s).tx.Blocked(Words) == s.tx.Blocked(Unbounded)
  }

  /** Wrap-around is invisible on every run exactly when datagrams stay whole. */
  lemma RefinementExactly(c: Config)
    requires c.Valid() && c.MaxInFlight() >= 1 && (c.WholePackets() || c.full >= BUFFMAX + HEADER_SIZE)
    ensures (forall run :: Agrees(c, run)) <==> c.WholePackets()
  {
    if c.WholePackets() {
      forall run ensures Agrees(c, run) {
        WordsRefineUnbounded(c, run);
      }
    } else {
      ReadingsDiffer(c);
      assert !Agrees(c, MisleadingRun(c, 0x7fff_ffff));
    }
  }

  lemma ReadingsDiffer(c: Config)
    requires Misleading(c)
    ensures !Agrees(c, MisleadingRun(c, 0x7fff_ffff))
  {
    hide Run, Config.MaxInFlight, MisleadingRun, Machine;
    WindowInWords(c);
    MisledReaches(Words, c, 0x7fff_ffff);
    MisledReaches(Unbounded, c, 0x7fff_ffff);
  }

  /** Sent minus acknowledged is within the window and the handles, and the bytes in flight fit the socket buffer. */
  ghost predicate InWindow(c: Config, run: seq<Action>)
    requires c.Valid()
  {
    match Run(Words, c, Init(c), run)
    case Stuck => true
    case Reached(s) =>
      && Words.Diff(s.tx.lastSend, s.tx.lastRecv) <= MostInFlight(c)
      && WireBytes(s.data) <= c.window
  }

  lemma WholeInWindow(c: Config, run: seq<Action>)
    requires c.Valid() && c.WholePackets() && MostInFlight(c) * FullWire(c) <= c.window
    ensures InWindow(c, run)
  {
    hide WireBytes, FullWire, MostInFlight;
    if Run(Words, c, Init(c), run).Reached? {
      MachineWindowSafety(c, run);
    }
  }

  lemma WholeOverrun(c: Config) returns (run: seq<Action>)
    requires c.Valid() && c.WholePackets() && c.MaxInFlight() >= 1 && MostInFlight(c) * FullWire(c) > c.window
    ensures !InWindow(c, run)
  {
    hide WireBytes, FullWire, MostInFlight;
    run := FillingRun(c);
    WordsRefineUnbounded(c, run);
    WireBytesOfWords(Run(Unbounded, c, Init(c), run).s.data);
  }

  lemma CutOutOfWindow(c: Config) returns (run: seq<Action>)
    requires Misleading(c)
    ensures !InWindow(c, run)
  {
    WindowInWords(c);
    run := MisledRun(c, 0x7fff_ffff);
  }

  /** The window holds on every run exactly when datagrams stay whole, and the receiver's socket buffer has room for
      as many full ones as the window and the handles allow. */
  lemma WindowHoldsExactly(c: Config)
    requires c.Valid() && c.MaxInFlight() >= 1 && (c.WholePackets() || c.full >= BUFFMAX + HEADER_SIZE)
    ensures (forall run :: InWindow(c, run)) <==> c.WholePackets() && MostInFlight(c) * FullWire(c) <= c.window
  {
    hide InWindow, MostInFlight, FullWire;
    if !c.WholePackets() {
      var run := CutOutOfWindow(c);
    } else if MostInFlight(c) * FullWire(c) <= c.window {
      forall run ensures InWindow(c, run) {
        WholeInWindow(c, run);
      }
    } else {
      var run := WholeOverrun(c);
    }
  }

  // ---------- A window reopened for ever ----------

  /** The datagrams of i windows. */
  function Total(c: Config, i: nat): (n: nat)
    requires Misleading(c)
    ensures i <= n
  {
    MulMonotone(1, c.MaxInFlight(), i);
    c.MaxInFlight() * i
  }

  lemma TotalStep(c: Config, i: nat)
    requires Misleading(c)
    ensures Total(c, i + 1) == Total(c, i) + c.MaxInFlight() && Total(c, 0) == 0
  {
    OneMoreTimes(i, c.MaxInFlight());
  }

  /** Full datagrams up to the j-th will have been sent when the j-th one is taken in, and its second packet says so. */
  function Claim(c: Config, j: nat): (q: nat)
    requires Misleading(c)
    ensures q < U32
  {
    (Total(c, j + 1) - 1) % U32
  }

  lemma ClaimAcks(c: Config, j: nat)
    requires Misleading(c)
    ensures Words.After(Claim(c, j)) == Total(c, j + 1) % U32
  {
    NarrowAfter(Total(c, j + 1) - 1);
  }

  function Tail(c: Config, j: nat): (tail: seq<Misread>)
    requires Misleading(c)
    ensures Readable(c.Later(c.full), tail)
  {
    Claims(c.full - BUFFMAX, Claim(c, j))
  }

  lemma TailWire(c: Config, j: nat)
    requires Misleading(c)
    ensures WireBytes(Sent(Words, c, j % U64, c.full, Tail(c, j))) == FullWire(c)
  {
    SentWire(c, j % U64, Tail(c, j));
  }

  /** The packets of the datagrams from the a-th to the one before the b-th. */
  function Train(c: Config, a: nat, b: nat): seq<Packet>
    requires Misleading(c) && a <= b
    decreases b
  {
    if a == b then [] else Train(c, a, b - 1) + Sent(Words, c, (b - 1) % U64, c.full, Tail(c, b - 1))
  }

  lemma {:induction false} TrainJoin(c: Config, a: nat, b: nat, d: nat)
    requires Misleading(c)
    requires a <= b <= d
    ensures Train(c, a, d) == Train(c, a, b) + Train(c, b, d)
    decreases d
  {
    hide Sent, Tail;
    if b < d {
      TrainJoin(c, a, b, d - 1);
    }
  }

  lemma OneMoreTimes(n: nat, x: nat)
    ensures (n + 1) * x == n * x + x
  {
  }

  lemma {:induction false} TrainWire(c: Config, a: nat, b: nat)
    requires Misleading(c) && a <= b
    ensures WireBytes(Train(c, a, b)) == (b - a) * FullWire(c)
    decreases b
  {
    hide Sent, Tail, FullWire, Misleading, WireBytes;
    NoWire();
    if a < b {
      var front, last := Train(c, a, b - 1), Sent(Words, c, (b - 1) % U64, c.full, Tail(c, b - 1));
      TrainWire(c, a, b - 1);
      TailWire(c, b - 1);
      WireAppend(front, last);
      assert Train(c, a, b) == front + last;
      OneMoreTimes(b - 1 - a, FullWire(c));
    }
  }

  function Fill(c: Config, a: nat, k: nat): seq<Action>
    requires Misleading(c)
  {
    if k == 0 then [] else Fill(c, a, k - 1) + Sends(c, Tail(c, a + (k - 1)))
  }

  /** k more datagrams go out while the window is open. */
  lemma {:induction false} FillReaches(c: Config, s: State, a: nat, k: nat)
    requires Misleading(c)
    requires k <= c.MaxInFlight() && s.tx == Sender(c, a, a) && s.held == 0
    ensures Run(Words, c, s, Fill(c, a, k))
         == Reached(s.(tx := Sender(c, a + k, a), data := s.data + Train(c, a, a + k)))
    ensures Lossless(Fill(c, a, k))
  {
    hide Sent, Tail, Sends, Sender, Config.MaxInFlight;
    if k == 0 {
      assert s.data + [] == s.data;
    } else {
      FillReaches(c, s, a, k - 1);
      var t := s.(tx := Sender(c, a + (k - 1), a), data := s.data + Train(c, a, a + (k - 1)));
      SendFull(c, t, a + (k - 1), a, Tail(c, a + (k - 1)));
      Assoc(s.data, Train(c, a, a + (k - 1)), Sent(Words, c, (a + (k - 1)) % U64, c.full, Tail(c, a + (k - 1))));
      Then(Words, c, s, Fill(c, a, k - 1), t, Sends(c, Tail(c, a + (k - 1))),
           s.(tx := Sender(c, a + k, a), data := s.data + Train(c, a, a + k)));
    }
  }

  /** i datagrams were taken in, and the window was filled again after each. */
  function Flooded(c: Config, i: nat): State
    requires Misleading(c)
  {
    var w, acked := c.MaxInFlight(), Total(c, i) % U32;
    State(Sender(c, Total(c, i + 1), Total(c, i)), Seqs(acked, acked, w, i > 0, w / NUM_BUFFS), 0,
          Train(c, i, Total(c, i + 1)), [], i)
  }

  lemma StartFlooded(c: Config)
    requires Misleading(c)
    ensures Run(Words, c, Init(c), [RecvAck] + Fill(c, 0, c.MaxInFlight())) == Reached(Flooded(c, 0))
    ensures Lossless([RecvAck] + Fill(c, 0, c.MaxInFlight()))
  {
    hide Run, Fill, Train, Sender, Total, Config.MaxInFlight;
    var w := c.MaxInFlight();
    StartsStalled(Words, c);
    TotalStep(c, 0);
    FillReaches(c, Stalled(c, 0), 0, w);
    assert [] + Train(c, 0, w) == Train(c, 0, w);
    Then(Words, c, Init(c), [RecvAck], Stalled(c, 0), Fill(c, 0, w), Flooded(c, 0));
  }

  /** What comes behind the datagram that is taken in next. */
  function Behind(c: Config, i: nat): seq<Packet>
    requires Misleading(c)
  {
    Train(c, i + 1, Total(c, i + 1))
  }

  lemma FrontOfTrain(c: Config, i: nat)
    requires Misleading(c)
    ensures Flooded(c, i).data == Sent(Words, c, i % U64, c.full, Claims(c.full - BUFFMAX, Claim(c, i))) + Behind(c, i)
  {
    hide Sent, Claims, Claim, Total;
    var b := Total(c, i + 1);
    TrainJoin(c, i, i + 1, b);
    assert Train(c, i, i) == [];
    var d := Sent(Words, c, i % U64, c.full, Tail(c, i));
    assert Train(c, i, i + 1) == Train(c, i, i) + d == d;
  }

  /** Taking in a datagram opens the window altogether. */
  lemma Reopens(c: Config, i: nat)
    requires Misleading(c) && c.MaxInFlight() >= 2
    ensures Misled(Words, c, Flooded(c, i), Claim(c, i), Behind(c, i))
         == Flooded(c, i + 1).(tx := Sender(c, Total(c, i + 1), Total(c, i + 1)), data := Behind(c, i))
    ensures Words.Diff(Words.After(Claim(c, i)), Flooded(c, i).rx.lastSend) >= Flooded(c, i).rx.trigger
  {
    hide Train, Config.MaxInFlight, Total;
    var a, b := Total(c, i), Total(c, i + 1);
    WindowInWords(c);
    TotalStep(c, i);
    ClaimAcks(c, i);
    NarrowDiff(b, a, b % U32, a % U32);
    NarrowEqual(a, b - 1);
    NarrowAfter(a);
  }

  lemma NextFlooded(c: Config, i: nat)
    requires Misleading(c) && c.MaxInFlight() >= 2
    ensures var run := Consume(c) + Fill(c, Total(c, i + 1), c.MaxInFlight());
            Run(Words, c, Flooded(c, i), run) == Reached(Flooded(c, i + 1)) && Lossless(run)
  {
    hide Run, Fill, Train, Sender, Sent, Claims, Claim, Config.MaxInFlight, Consume, Misled, Counting.Diff,
         Counting.After, Total;
    var w, q, b := c.MaxInFlight(), Claim(c, i), Total(c, i + 1);
    FrontOfTrain(c, i);
    Reopens(c, i);
    ConsumeReaches(Words, c, Flooded(c, i), i % U64, q, Behind(c, i));
    var t := Misled(Words, c, Flooded(c, i), q, Behind(c, i));
    FillReaches(c, t, b, w);
    TotalStep(c, i + 1);
    TrainJoin(c, i + 1, b, b + w);
    Then(Words, c, Flooded(c, i), Consume(c), t, Fill(c, b, w), Flooded(c, i + 1));
  }

  lemma {:induction false} FloodingRun(c: Config, i: nat) returns (run: seq<Action>)
    requires Misleading(c) && c.MaxInFlight() >= 2
    ensures Run(Words, c, Init(c), run) == Reached(Flooded(c, i)) && Lossless(run)
  {
    hide Run, Flooded, Fill, Consume, Total;
    if i == 0 {
      StartFlooded(c);
      run := [RecvAck] + Fill(c, 0, c.MaxInFlight());
    } else {
      var front := FloodingRun(c, i - 1);
      NextFlooded(c, i - 1);
      var more := Consume(c) + Fill(c, Total(c, i), c.MaxInFlight());
      Then(Words, c, Init(c), front, Flooded(c, i - 1), more, Flooded(c, i));
      run := front + more;
    }
  }

  lemma FloodedWire(c: Config, i: nat)
    requires Misleading(c)
    ensures WireBytes(Flooded(c, i).data) == (Total(c, i + 1) - i) * FullWire(c)
  {
    hide Train, FullWire, WireBytes, Total;
    TrainWire(c, i, Total(c, i + 1));
  }

  /** There is no bound on the bytes in flight. */
  lemma BytesUnbounded(c: Config, bound: nat) returns (run: seq<Action>)
    requires Misleading(c) && c.MaxInFlight() >= 2
    ensures Lossless(run) && Run(Words, c, Init(c), run).Reached?
    ensures WireBytes(Run(Words, c, Init(c), run).s.data) > bound
  {
    hide Run, Flooded, FullWire, WireBytes, Config.MaxInFlight;
    run := FloodingRun(c, bound);
    FloodedWire(c, bound);
    MulMonotone(2, c.MaxInFlight(), bound + 1);
    MulMonotone(bound + 2, Total(c, bound + 1) - bound, FullWire(c));
    FullNotEmpty(c);
    MulMonotone(1, FullWire(c), bound + 2);
  }

  lemma FullNotEmpty(c: Config)
    requires c.Valid()
    ensures FullWire(c) >= 1
  {
  }

  /** With jumbo datagrams the window overruns the buffer before anything is received: each leaves in three packets, but
      only one header was reckoned with. */
  lemma JumboOverrun() returns (c: Config, run: seq<Action>)
    ensures c == Config(9000, 900000, 1, true, 8952) && c.Valid() && Run(Words, c, Init(c), run).Reached?
    ensures WireBytes(Run(Words, c, Init(c), run).s.data) == 909600 > c.window
  {
    c := Config(9000, 900000, 1, true, 8952);
    assert c.MaxInFlight() == 100 && FullWire(c) == 9096;
    hide Config.MaxInFlight, FullWire, Run, Flooded, WireBytes;
    assert Total(c, 1) == 100;
    run := FloodingRun(c, 0);
    FloodedWire(c, 0);
  }

  /** And where the headers fit, as soon as one datagram is taken in. */
  lemma ReopenedWindow() returns (c: Config, run: seq<Action>)
    ensures c == Config(9000, 98999, 1, true, 8952) && c.Valid() && Run(Words, c, Init(c), run).Reached?
    ensures MostInFlight(c) * FullWire(c) == 90960 <= c.window
    ensures WireBytes(Run(Words, c, Init(c), run).s.data) == 172824 > c.window
  {
    c := Config(9000, 98999, 1, true, 8952);
    assert c.MaxInFlight() == 10 && FullWire(c) == 9096;
    hide Config.MaxInFlight, FullWire, Run, Flooded, WireBytes;
    assert Total(c, 2) == 20;
    run := FloodingRun(c, 1);
    FloodedWire(c, 1);
  }

  // ---------- The packets as bytes ----------

  /** acquireRecv reads p as q, whatever its buffer held before. */
  ghost predicate Reads(p: seq<byte>, q: Packet) {
    && |p| == q.bytes
    && forall buf: seq<byte> :: HEADER_SIZE <= |buf| && |p| <= |buf| ==>
         var h := Decode(Written(buf, 0, p));
         (h.bytes > |p| <==> q.refused) && (!q.refused ==> h.sequence == q.seqno)
  }

  /** A packet's worth of samples that is read as m. */
  function PacketBytes(n: nat, m: Misread): (p: seq<byte>)
    requires 0 < n <= BUFFMAX && 0 <= m.seqno < U32 && (n < HEADER_SIZE ==> m.refused)
    ensures |p| == n
  {
    if n < HEADER_SIZE then seq(n, _ => 255)
    else
      Encode(Header(if m.refused then U32 - 1 else HEADER_SIZE, m.seqno, 0, NO_FLAGS, 0)) + seq(n - HEADER_SIZE, _ => 0)
  }

  lemma HeaderReads(p: seq<byte>, h: Header)
    requires |p| >= HEADER_SIZE && Decode(p) == h
    ensures Reads(p, Packet(h.sequence, |p|, h.bytes > |p|))
  {
    forall buf: seq<byte> | |p| <= |buf| ensures Decode(Written(buf, 0, p)) == h {
      WrittenFront(buf, p);
    }
  }

  lemma ShortReads(n: nat, seqno: int)
    requires 0 < n < HEADER_SIZE
    ensures Reads(seq(n, _ => 255), Packet(seqno, n, true))
  {
    var p: seq<byte> := seq(n, _ => 255);
    forall buf: seq<byte> | HEADER_SIZE <= |buf| ensures Decode(Written(buf, 0, p)).bytes > n {
      LargeWord(Written(buf, 0, p)[..4]);
    }
  }

  lemma LargeWord(s: seq<byte>)
    requires |s| == 4 && s[0] == 255
    ensures FromBigEndian(s) >= 255
  {
    assert FromBigEndian(s[..1]) == 255 by {
      assert s[..1][..0] == [];
    }
    assert s[..2][..1] == s[..1] && s[..3][..2] == s[..2] && s[..4][..3] == s[..3] && s[..4] == s;
    assert FromBigEndian(s[..2]) >= 255;
    assert FromBigEndian(s[..3]) >= 255;
  }

  lemma PacketBytesRead(n: nat, m: Misread)
    requires 0 < n <= BUFFMAX && 0 <= m.seqno < U32 && (n < HEADER_SIZE ==> m.refused)
    ensures Reads(PacketBytes(n, m), Packet(m.seqno, n, m.refused))
  {
    hide Reads, Encode, Decode;
    if n < HEADER_SIZE {
      ShortReads(n, m.seqno);
    } else {
      var h := Header(if m.refused then U32 - 1 else HEADER_SIZE, m.seqno, 0, NO_FLAGS, 0);
      PowersOf256();
      HeaderRoundTrip(h, seq(n - HEADER_SIZE, _ => 0));
      HeaderReads(PacketBytes(n, m), h);
    }
  }

  /** The samples behind the first packet. */
  function LaterBytes(bytes: nat, tail: seq<Misread>): (r: seq<byte>)
    requires Readable(bytes, tail)
    ensures |r| == bytes
    decreases bytes
  {
    if bytes == 0 then []
    else
      var n := Min(bytes, BUFFMAX);
      PacketBytes(n, tail[0]) + LaterBytes(bytes - n, tail[1..])
  }

  lemma {:induction false} LaterBytesRead(bytes: nat, tail: seq<Misread>)
    requires Readable(bytes, tail)
    ensures var ps, qs := Packets(LaterBytes(bytes, tail)), LaterPackets(bytes, tail);
            |ps| == |qs| && forall j :: 0 <= j < |ps| ==> Reads(ps[j], qs[j])
    decreases bytes
  {
    hide Reads, PacketBytes;
    if bytes > 0 {
      var n := Min(bytes, BUFFMAX);
      PacketBytesRead(n, tail[0]);
      LaterBytesRead(bytes - n, tail[1..]);
      PacketsOf(PacketBytes(n, tail[0]), LaterBytes(bytes - n, tail[1..]));
    }
  }

  lemma PacketsOf(p: seq<byte>, rest: seq<byte>)
    requires 0 < |p| <= BUFFMAX && (rest == [] || |p| == BUFFMAX)
    ensures Packets(p + rest) == [p] + Packets(rest)
  {
    if rest == [] {
      assert p + rest == p;
    } else {
      assert (p + rest)[..BUFFMAX] == p && (p + rest)[BUFFMAX..] == rest;
    }
  }

  /** The link carries the layout's datagrams, in datagram mode. */
  ghost predicate SameLink(c: Config, l: Layout) {
    && c.Valid() && l.Valid() && c.datagram && l.xferSize == c.mtu - PROTO_HEADER_SIZE < 0x8000_0000
    && c.full == l.Bytes(l.BuffSize())
  }

  /** Nothing in the runs above is made up: whatever the later packets of a full datagram are to be read as, there is a
      well-formed datagram with those packets. */
  lemma AnyMisreading(c: Config, l: Layout, seqno: nat, tail: seq<Misread>) returns (d: seq<byte>)
    requires SameLink(c, l) && !c.WholePackets() && seqno < U32 && Readable(c.Later(c.full), tail)
    ensures WellFormed(l, d) && |d| == c.full && Decode(d).sequence == seqno
    ensures var qs := Sent(Words, c, seqno, c.full, tail);
            |Packets(d)| == |qs| && forall j :: 0 <= j < |qs| ==> Reads(Packets(d)[j], qs[j])
  {
    hide Reads, Encode, Decode, Packets, Layout.BuffSize, Layout.Bytes, LaterBytes, LaterPackets, Readable;
    var h := Header(c.full, seqno, l.BuffSize(), NO_FLAGS, 0);
    BuffSizeSmall(l);
    RegionsFit(l, 0, l.BuffSize());
    PowersOf256();
    var zeros: seq<byte> := seq(BUFFMAX - HEADER_SIZE, _ => 0);
    var p, rest := Encode(h) + zeros, LaterBytes(c.full - BUFFMAX, tail);
    d := p + rest;
    HeaderRoundTrip(h, zeros);
    HeaderReads(p, h);
    assert d == Encode(h) + (zeros + rest);
    HeaderRoundTrip(h, zeros + rest);
    PacketsOf(p, rest);
    LaterBytesRead(c.full - BUFFMAX, tail);
  }
}
