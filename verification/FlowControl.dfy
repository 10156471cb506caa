/** The windowed flow control of common/SoapyStreamEndpoint.cpp between a sending and a receiving
    endpoint, over FIFO channels: a stream loses nothing, packets may be lost, and a datagram that does not fit one
    packet is cut up. The same step rules are read in two ways: with the machine's 32-bit sequence words (64-bit
    size_t counters), and with unbounded counters. */
module FlowControl {
  import opened Arithmetic
  import Sockets

  const U32: int := 0x1_0000_0000
  const U64: int := 0x1_0000_0000_0000_0000

  const NUM_BUFFS: nat := 8
  const PROTO_HEADER_SIZE: nat := 48
  const HEADER_SIZE: nat := 24

  datatype Counting = Words | Unbounded {
    /** htonl of a size_t counter. */
    function Wire(x: int): int {
      if Words? then x % U32 else x
    }

    /** uint32_t(x - y) of two size_t counters. */
    function Diff(x: int, y: int): int {
      if Words? then ((x - y) % U64) % U32 else x - y
    }

    /** _lastSendSequence++ on a size_t. */
    function IncSend(x: int): int {
      if Words? then (x + 1) % U64 else x + 1
    }

    /** ntohl(sequence)+1, computed on 32-bit words. */
    function After(seqno: int): int {
      if Words? then (seqno + 1) % U32 else seqno + 1
    }
  }

  /** The sequence-tracking fields of an endpoint. */
  datatype Seqs = Seqs(lastSend: int, lastRecv: int, maxInFlight: int, receiveInitial: bool, trigger: int) {
    /** The guard of waitSend's loop. */
    predicate Blocked(n: Counting) {
      !receiveInitial || n.Diff(lastSend, lastRecv) >= maxInFlight
    }

    /** recvACK. */
    function AckReceived(seqno: int, window: int): Seqs {
      this.(receiveInitial := true, lastRecv := seqno, maxInFlight := window)
    }

    /** sendACK. */
    function AckSent(): Seqs {
      this.(lastSend := lastRecv)
    }

    /** releaseSend. */
    function DatagramSent(n: Counting): Seqs {
      this.(lastSend := n.IncSend(lastSend))
    }

    /** acquireRecv up to the ACK trigger. */
    function DatagramReceived(n: Counting, seqno: int): Seqs {
      this.(receiveInitial := true, lastRecv := n.After(seqno))
    }

    /** acquireRecv of a packet that is not whole. */
    function PacketRefused(): Seqs {
      this.(receiveInitial := true)
    }

    /** The ACK trigger of acquireRecv. */
    predicate AckDue(n: Counting) {
      n.Diff(lastRecv, lastSend) >= trigger
    }

    /** acquireRecv as a whole: the ACK follows at once when it is due. */
    function TakenIn(n: Counting, seqno: int): Seqs {
      var e := DatagramReceived(n, seqno);
      if e.AckDue(n) then e.AckSent() else e
    }

    /** acquireRecv's dropped or out of order test. */
    predicate OutOfOrder(n: Counting, seqno: int) {
      n.Wire(lastRecv) != seqno
    }
  }

  /** What the receiver takes in at once: a datagram, or one packet of a datagram that is cut up. seqno is what it reads
      as the sequence number, and it refuses a packet that announces more bytes than it has. */
  datatype Packet = Packet(seqno: int, bytes: nat, refused: bool)

  /** What it makes of a later packet of a datagram, whose samples it reads as a header. */
  datatype Misread = Misread(seqno: int, refused: bool)

  datatype Ack = Ack(seqno: int, window: int)

  /** window is the receiver's actual socket buffer size, handles the most write handles held at once, and full the
      length of a full datagram. */
  datatype Config = Config(mtu: nat, window: nat, handles: nat, datagram: bool, full: nat) {
    ghost predicate Valid() {
      && HEADER_SIZE <= full <= mtu - PROTO_HEADER_SIZE
      && window < 0x8000_0000
      && 1 <= handles <= NUM_BUFFS
    }

    /** No datagram is cut up. */
    predicate WholePackets() {
      datagram ==> full <= Sockets.BUFFMAX
    }

    /** How many bytes of a datagram do not go into its first packet. */
    function Later(bytes: nat): nat {
      if datagram && bytes > Sockets.BUFFMAX then bytes - Sockets.BUFFMAX else 0
    }

    function MaxInFlight(): (w: nat)
      requires Valid()
      ensures w * mtu <= window && w <= window
    {
      QuotientFits(window, mtu);
      window / mtu
    }

    /** The number of datagrams after which an ACK goes out, at the latest. */
    function AckEvery(): nat
      requires Valid()
    {
      Max(1, MaxInFlight() / NUM_BUFFS)
    }
  }

  datatype State = State(tx: Seqs, rx: Seqs, held: nat, data: seq<Packet>, acks: seq<Ack>, notices: nat)

  datatype Action =
    | AcquireSend                 // waitSend lets the sender through and it takes a handle
    | ReleaseSend(bytes: nat, tail: seq<Misread>)  // the sender sends a held handle's buffer, with these later packets
    | AcquireRecv                 // the receiver takes in the oldest packet, and may send an ACK
    | IdleAck                     // waitRecv's ACK before anything was received
    | RecvAck                     // the sender takes in the oldest ACK
    | LoseData(i: nat)
    | LoseAck(i: nat)

  function Init(c: Config): State
    requires c.Valid()
  {
    State(Seqs(0, 0, 0, false, 0), Seqs(0, 0, c.MaxInFlight(), false, c.MaxInFlight() / NUM_BUFFS),
          0, [], [Ack(0, c.MaxInFlight())], 0)
  }

  function Without<T>(s: seq<T>, i: nat): seq<T>
    requires i < |s|
  {
    s[..i] + s[i + 1..]
  }

  /** What so many bytes of samples, cut up into packets, may look like. Only the last packet can be shorter than a
      header. */
  predicate Readable(bytes: nat, tail: seq<Misread>)
    decreases bytes
  {
    if bytes == 0 then tail == []
    else
      && tail != [] && 0 <= tail[0].seqno < U32 && (bytes < HEADER_SIZE ==> tail[0].refused)
      && Readable(bytes - Min(bytes, Sockets.BUFFMAX), tail[1..])
  }

  function LaterPackets(bytes: nat, tail: seq<Misread>): seq<Packet>
    requires Readable(bytes, tail)
    decreases bytes
  {
    if bytes == 0 then []
    else
      var n := Min(bytes, Sockets.BUFFMAX);
      [Packet(tail[0].seqno, n, tail[0].refused)] + LaterPackets(bytes - n, tail[1..])
  }

  /** What goes out with a datagram: itself, or the packets that it is cut up into, of which the first one has the
      header and announces more than it has. */
  function Sent(n: Counting, c: Config, lastSend: int, bytes: nat, tail: seq<Misread>): seq<Packet>
    requires Readable(c.Later(bytes), tail)
  {
    var later := c.Later(bytes);
    if later == 0 then [Packet(n.Wire(lastSend), bytes, false)]
    else [Packet(n.Wire(lastSend), bytes - later, true)] + LaterPackets(later, tail)
  }

  predicate Enabled(n: Counting, c: Config, s: State, a: Action)
    requires c.Valid()
  {
    match a
    case AcquireSend => s.held < c.handles && !s.tx.Blocked(n)
    case ReleaseSend(bytes, tail) => s.held > 0 && HEADER_SIZE <= bytes <= c.full && Readable(c.Later(bytes), tail)
    case AcquireRecv => s.data != []
    case IdleAck => !s.rx.receiveInitial
    case RecvAck => s.acks != []
    case LoseData(i) => c.datagram && i < |s.data|
    case LoseAck(i) => c.datagram && i < |s.acks|
  }

  function WithAck(n: Counting, s: State, rx: Seqs): State {
    s.(rx := rx.AckSent(), acks := s.acks + [Ack(n.Wire(rx.lastRecv), rx.maxInFlight)])
  }

  function Next(n: Counting, c: Config, s: State, a: Action): State
    requires c.Valid() && Enabled(n, c, s, a)
  {
    match a
    case AcquireSend => s.(held := s.held + 1)
    case ReleaseSend(bytes, tail) =>
      s.(held := s.held - 1, data := s.data + Sent(n, c, s.tx.lastSend, bytes, tail), tx := s.tx.DatagramSent(n))
    case AcquireRecv =>
      if s.data[0].refused then s.(data := s.data[1..], rx := s.rx.PacketRefused())
      else
        var seqno := s.data[0].seqno;
        var rx := s.rx.DatagramReceived(n, seqno);
        var t := s.(data := s.data[1..], rx := rx, notices := s.notices + if s.rx.OutOfOrder(n, seqno) then 1 else 0);
        if rx.AckDue(n) then WithAck(n, t, rx) else t
    case IdleAck => WithAck(n, s, s.rx)
    case RecvAck => s.(tx := s.tx.AckReceived(s.acks[0].seqno, s.acks[0].window), acks := s.acks[1..])
    case LoseData(i) => s.(data := Without(s.data, i))
    case LoseAck(i) => s.(acks := Without(s.acks, i))
  }

  /** The state after a run, if every action of it was enabled in turn. */
  datatype Outcome = Stuck | Reached(s: State)

  function Run(n: Counting, c: Config, s: State, run: seq<Action>): (o: Outcome)
    requires c.Valid()
    decreases |run|
  {
    if run == [] then Reached(s)
    else
      match Run(n, c, s, run[..|run| - 1])
      case Stuck => Stuck
      case Reached(t) => if Enabled(n, c, t, run[|run| - 1]) then Reached(Next(n, c, t, run[|run| - 1])) else Stuck
  }

  /** What every step of the unbounded reading keeps, if datagrams stay whole. */
  ghost predicate Inv(c: Config, s: State)
    requires c.Valid()
  {
    && s.rx.maxInFlight == c.MaxInFlight() && s.rx.trigger == c.MaxInFlight() / NUM_BUFFS
    && 0 <= s.tx.lastRecv <= s.rx.lastSend <= s.rx.lastRecv <= s.tx.lastSend
    && (forall i :: 0 <= i < |s.acks| ==>
          s.tx.lastRecv <= s.acks[i].seqno <= s.rx.lastSend && s.acks[i].window == c.MaxInFlight())
    && (forall i, j :: 0 <= i < j < |s.acks| ==> s.acks[i].seqno <= s.acks[j].seqno)
    && (forall i :: 0 <= i < |s.data| ==>
          s.rx.lastRecv <= s.data[i].seqno < s.tx.lastSend && s.data[i].bytes <= c.full && !s.data[i].refused)
    && (forall i, j :: 0 <= i < j < |s.data| ==> s.data[i].seqno < s.data[j].seqno)
    && s.held <= c.handles
    && (s.tx.receiveInitial ==> s.tx.maxInFlight == c.MaxInFlight())
    && (!s.tx.receiveInitial ==> s.tx.lastSend == 0 && s.held == 0)
    && s.tx.lastSend + s.held - s.tx.lastRecv <= c.MaxInFlight() + c.handles - 1
    && s.rx.lastRecv - s.rx.lastSend < c.AckEvery()
    && (!s.rx.receiveInitial ==> s.rx.lastRecv == 0)
  }

  lemma InvSenderStep(c: Config, s: State, a: Action)
    requires c.Valid() && c.WholePackets() && Inv(c, s) && Enabled(Unbounded, c, s, a)
    requires a.AcquireSend? || a.ReleaseSend? || a.RecvAck?
    ensures Inv(c, Next(Unbounded, c, s, a))
  {
  }

  lemma InvReceiverStep(c: Config, s: State, a: Action)
    requires c.Valid() && c.WholePackets() && Inv(c, s) && Enabled(Unbounded, c, s, a)
    requires a.AcquireRecv? || a.IdleAck?
    ensures Inv(c, Next(Unbounded, c, s, a))
  {
  }

  lemma InvLossStep(c: Config, s: State, a: Action)
    requires c.Valid() && c.WholePackets() && Inv(c, s) && Enabled(Unbounded, c, s, a)
    requires a.LoseData? || a.LoseAck?
    ensures Inv(c, Next(Unbounded, c, s, a))
  {
  }

  lemma InvStep(c: Config, s: State, a: Action)
    requires c.Valid() && c.WholePackets() && Inv(c, s) && Enabled(Unbounded, c, s, a)
    ensures Inv(c, Next(Unbounded, c, s, a))
  {
    match a
    case AcquireSend | ReleaseSend(_, _) | RecvAck => InvSenderStep(c, s, a);
    case AcquireRecv | IdleAck => InvReceiverStep(c, s, a);
    case LoseData(_) | LoseAck(_) => InvLossStep(c, s, a);
  }

  lemma {:induction false} InvRun(c: Config, run: seq<Action>)
    requires c.Valid() && c.WholePackets() && Run(Unbounded, c, Init(c), run).Reached?
    ensures Inv(c, Run(Unbounded, c, Init(c), run).s)
    decreases |run|
  {
    if run != [] {
      var front := run[..|run| - 1];
      InvRun(c, front);
      InvStep(c, Run(Unbounded, c, Init(c), front).s, run[|run| - 1]);
    }
  }

  // ---------- 32-bit words against unbounded counters ----------

  function WordOf(e: Seqs): Seqs {
    e.(lastSend := e.lastSend % U64, lastRecv := e.lastRecv % U32)
  }

  /** The receiver's counters are both sequence words. */
  function RxWordOf(e: Seqs): Seqs {
    e.(lastSend := e.lastSend % U32, lastRecv := e.lastRecv % U32)
  }

  function DataWords(data: seq<Packet>): seq<Packet> {
    seq(|data|, i requires 0 <= i < |data| => data[i].(seqno := data[i].seqno % U32))
  }

  function AckWords(acks: seq<Ack>): seq<Ack> {
    seq(|acks|, i requires 0 <= i < |acks| => acks[i].(seqno := acks[i].seqno % U32))
  }

  /** The machine state that stands for a state with unbounded counters. */
  function Machine(s: State): State {
    s.(tx := WordOf(s.tx), rx := RxWordOf(s.rx), data := DataWords(s.data), acks := AckWords(s.acks))
  }

  lemma NarrowDiff(x: int, y: int, x': int, y': int)
    requires 0 <= x - y < U32
    requires x' == x % U64 || x' == x % U32
    requires y' == y % U32
    ensures Words.Diff(x', y') == x - y
  {
    var qx := if x' == x % U64 then (x / U64) * (U64 / U32) else x / U32;
    var qy := y / U32;
    assert x' == x - U32 * qx && y' == y - U32 * qy;
    var d := x' - y';
    assert d % U64 == d - U64 * (d / U64);
    assert (d % U64) == (x - y) + U32 * (qy - qx - (U64 / U32) * (d / U64));
    ModShift(x - y, qy - qx - (U64 / U32) * (d / U64), U32);
  }

  lemma NarrowEqual(x: int, y: int)
    requires 0 <= y - x < U32
    ensures x % U32 == y % U32 <==> x == y
  {
  }

  lemma NarrowAfter(x: int)
    ensures (x % U32 + 1) % U32 == (x + 1) % U32
    ensures (x % U64 + 1) % U64 == (x + 1) % U64
    ensures (x % U64) % U32 == x % U32
    ensures (x % U32) % U32 == x % U32
  {
    ModPlusOne(x, U32);
    ModPlusOne(x, U64);
    var q := x / U64;
    ModShift(x, -U32 * q, U32);
    assert x % U64 == x + U32 * (-U32 * q);
  }

  lemma MachineWindow(tx: Seqs)
    requires 0 <= tx.lastSend - tx.lastRecv < U32
    ensures Words.Diff(WordOf(tx).lastSend, WordOf(tx).lastRecv) == tx.lastSend - tx.lastRecv
  {
    NarrowDiff(tx.lastSend, tx.lastRecv, tx.lastSend % U64, tx.lastRecv % U32);
  }

  lemma MachineBlocked(c: Config, s: State)
    requires c.Valid() && Inv(c, s)
    ensures Words.Diff(Machine(s).tx.lastSend, Machine(s).tx.lastRecv) == s.tx.lastSend - s.tx.lastRecv
    ensures Machine(s).tx.Blocked(Words) == s.tx.Blocked(Unbounded)
  {
    MachineWindow(s.tx);
  }

  lemma MachineAckDue(rx: Seqs)
    requires 0 <= rx.lastRecv - rx.lastSend < U32
    ensures RxWordOf(rx).AckDue(Words) == rx.AckDue(Unbounded)
  {
    NarrowDiff(rx.lastRecv, rx.lastSend, rx.lastRecv % U32, rx.lastSend % U32);
  }

  lemma MachineOutOfOrder(rx: Seqs, seqno: int)
    requires 0 <= seqno - rx.lastRecv < U32
    ensures RxWordOf(rx).OutOfOrder(Words, seqno % U32) == rx.OutOfOrder(Unbounded, seqno)
  {
    NarrowAfter(rx.lastRecv);
    NarrowEqual(rx.lastRecv, seqno);
  }

  lemma MachineReceives(c: Config, s: State)
    requires c.Valid() && c.WholePackets() && Inv(c, s) && s.data != []
    ensures var seqno := s.data[0].seqno;
            var rx := s.rx.DatagramReceived(Unbounded, seqno);
            && Machine(s).rx.DatagramReceived(Words, seqno % U32) == RxWordOf(rx)
            && RxWordOf(rx).AckDue(Words) == rx.AckDue(Unbounded)
            && Machine(s).rx.OutOfOrder(Words, seqno % U32) == s.rx.OutOfOrder(Unbounded, seqno)
  {
    var seqno := s.data[0].seqno;
    MachineAckDue(s.rx.DatagramReceived(Unbounded, seqno));
    MachineOutOfOrder(s.rx, seqno);
    NarrowAfter(seqno);
  }

  lemma MachineAcks(s: State, rx: Seqs)
    ensures WithAck(Words, Machine(s), RxWordOf(rx)) == Machine(WithAck(Unbounded, s, rx))
  {
    NarrowAfter(rx.lastRecv);
    assert AckWords(s.acks + [Ack(rx.lastRecv, rx.maxInFlight)])
        == AckWords(s.acks) + [Ack(rx.lastRecv % U32, rx.maxInFlight)];
  }

  lemma MachineRecvStep(c: Config, s: State)
    requires c.Valid() && c.WholePackets() && Inv(c, s) && s.data != []
    ensures Next(Words, c, Machine(s), AcquireRecv) == Machine(Next(Unbounded, c, s, AcquireRecv))
  {
    MachineReceives(c, s);
    assert DataWords(s.data)[1..] == DataWords(s.data[1..]);
    var seqno := s.data[0].seqno;
    var rx := s.rx.DatagramReceived(Unbounded, seqno);
    var more := if s.rx.OutOfOrder(Unbounded, seqno) then 1 else 0;
    MachineAcks(s.(data := s.data[1..], rx := rx, notices := s.notices + more), rx);
  }

  lemma MachineSendStep(c: Config, s: State, a: Action)
    requires c.Valid() && c.WholePackets() && a.ReleaseSend? && Enabled(Unbounded, c, s, a)
    ensures Next(Words, c, Machine(s), a) == Machine(Next(Unbounded, c, s, a))
  {
    NarrowAfter(s.tx.lastSend);
    assert DataWords(s.data + [Packet(s.tx.lastSend, a.bytes, false)])
        == DataWords(s.data) + [Packet(s.tx.lastSend % U32, a.bytes, false)];
  }

  lemma MachineQuietStep(c: Config, s: State, a: Action)
    requires c.Valid() && Enabled(Unbounded, c, s, a) && Enabled(Words, c, Machine(s), a)
    requires a.AcquireSend? || a.IdleAck? || a.RecvAck?
    ensures Next(Words, c, Machine(s), a) == Machine(Next(Unbounded, c, s, a))
  {
    match a
    case AcquireSend =>
    case IdleAck => MachineAcks(s, s.rx);
    case RecvAck => assert AckWords(s.acks)[1..] == AckWords(s.acks[1..]);
  }

  lemma MachineLossStep(c: Config, s: State, a: Action)
    requires c.Valid() && Enabled(Unbounded, c, s, a) && Enabled(Words, c, Machine(s), a)
    requires a.LoseData? || a.LoseAck?
    ensures Next(Words, c, Machine(s), a) == Machine(Next(Unbounded, c, s, a))
  {
    match a
    case LoseData(i) => assert Without(DataWords(s.data), i) == DataWords(Without(s.data, i));
    case LoseAck(i) => assert Without(AckWords(s.acks), i) == AckWords(Without(s.acks, i));
  }

  lemma MachineEnabled(c: Config, s: State, a: Action)
    requires c.Valid() && Machine(s).tx.Blocked(Words) == s.tx.Blocked(Unbounded)
    ensures Enabled(Words, c, Machine(s), a) == Enabled(Unbounded, c, s, a)
  {
    hide Seqs.Blocked;
  }

  /** In every state that satisfies the invariant both readings let the sender through alike, enable the
      same actions, log the same out of order notices, and lead to states that correspond again. */
  lemma MachineStep(c: Config, s: State, a: Action)
    requires c.Valid() && c.WholePackets() && Inv(c, s)
    ensures Machine(s).tx.Blocked(Words) == s.tx.Blocked(Unbounded)
    ensures Enabled(Words, c, Machine(s), a) == Enabled(Unbounded, c, s, a)
    ensures Enabled(Unbounded, c, s, a) ==> Next(Words, c, Machine(s), a) == Machine(Next(Unbounded, c, s, a))
  {
    hide Next, Machine, Inv;
    MachineBlocked(c, s);
    MachineEnabled(c, s, a);
    if Enabled(Unbounded, c, s, a) {
      match a
      case AcquireSend | IdleAck | RecvAck => MachineQuietStep(c, s, a);
      case ReleaseSend(_, _) => MachineSendStep(c, s, a);
      case AcquireRecv => MachineRecvStep(c, s);
      case LoseData(_) | LoseAck(_) => MachineLossStep(c, s, a);
    }
  }

  /** Wrap-around is invisible if datagrams stay whole: on every run, of any length, the 32-bit machine gets stuck
      exactly when unbounded counters would, and otherwise reaches the corresponding state, notices included. */
  lemma {:induction false} WordsRefineUnbounded(c: Config, run: seq<Action>)
    requires c.Valid() && c.WholePackets()
    ensures match Run(Unbounded, c, Init(c), run)
            case Stuck => Run(Words, c, Init(c), run) == Stuck
            case Reached(s) =>
              && Run(Words, c, Init(c), run) == Reached(Machine(s))
              && Machine(s).tx.Blocked(Words) == s.tx.Blocked(Unbounded)
              && (forall a :: Enabled(Words, c, Machine(s), a) == Enabled(Unbounded, c, s, a))
    decreases |run|
  {
    if run == [] {
      assert Machine(Init(c)) == Init(c);
    } else {
      var front, a := run[..|run| - 1], run[|run| - 1];
      WordsRefineUnbounded(c, front);
      if Run(Unbounded, c, Init(c), front).Reached? {
        InvRun(c, front);
        MachineStep(c, Run(Unbounded, c, Init(c), front).s, a);
      }
    }
    if Run(Unbounded, c, Init(c), run).Reached? {
      var s := Run(Unbounded, c, Init(c), run).s;
      InvRun(c, run);
      forall a ensures Enabled(Words, c, Machine(s), a) == Enabled(Unbounded, c, s, a) {
        MachineStep(c, s, a);
      }
      MachineBlocked(c, s);
    }
  }

  // ---------- Safety of the window ----------

  /** What the packets in flight occupy, with the network's own header for each. */
  function WireBytes(data: seq<Packet>): nat {
    if data == [] then 0 else data[0].bytes + PROTO_HEADER_SIZE + WireBytes(data[1..])
  }

  /** What a full datagram occupies: in datagram mode, one header for every packet that it leaves in. */
  function FullWire(c: Config): nat {
    c.full + PROTO_HEADER_SIZE * if c.datagram then Sockets.PacketCount(c.full) else 1
  }

  /** Of a datagram that stays whole that is no more than the transfer unit. */
  lemma FullWireOfWhole(c: Config)
    requires c.Valid() && c.WholePackets()
    ensures FullWire(c) == c.full + PROTO_HEADER_SIZE <= c.mtu
  {
  }

  lemma {:induction false} WireBytesBound(c: Config, data: seq<Packet>)
    requires c.Valid() && c.WholePackets() && forall i :: 0 <= i < |data| ==> data[i].bytes <= c.full
    ensures WireBytes(data) <= |data| * FullWire(c)
  {
    FullWireOfWhole(c);
    if data != [] {
      WireBytesBound(c, data[1..]);
      Distribute(FullWire(c), |data| - 1, 1);
    }
  }

  /** Distinct sequence numbers between lo and hi number at most hi - lo. */
  lemma {:induction false} CountOfSequences(data: seq<Packet>, lo: int, hi: int)
    requires lo <= hi
    requires forall i :: 0 <= i < |data| ==> lo <= data[i].seqno < hi
    requires forall i, j :: 0 <= i < j < |data| ==> data[i].seqno < data[j].seqno
    ensures |data| <= hi - lo
  {
    if data != [] {
      var last := data[|data| - 1].seqno;
      CountOfSequences(data[..|data| - 1], lo, last);
    }
  }

  /** The most datagrams that can be under way. */
  function MostInFlight(c: Config): nat
    requires c.Valid()
  {
    c.MaxInFlight() + c.handles - 1
  }

  /** Sent but not acknowledged is bounded by the window and the handles held at once; so the bytes in flight, network
      headers included, stay within as many full datagrams, and within the socket buffer if one handle is held at a
      time. */
  lemma WindowSafety(c: Config, run: seq<Action>)
    requires c.Valid() && c.WholePackets() && Run(Unbounded, c, Init(c), run).Reached?
    ensures var s := Run(Unbounded, c, Init(c), run).s;
            && s.tx.lastSend - s.tx.lastRecv <= MostInFlight(c)
            && |s.data| <= s.tx.lastSend - s.rx.lastRecv
            && WireBytes(s.data) <= MostInFlight(c) * FullWire(c)
            && (c.handles == 1 ==> WireBytes(s.data) <= c.window)
  {
    InvRun(c, run);
    WindowOfInv(c, Run(Unbounded, c, Init(c), run).s);
  }

  lemma WindowOfInv(c: Config, s: State)
    requires c.Valid() && c.WholePackets() && Inv(c, s)
    ensures |s.data| <= s.tx.lastSend - s.rx.lastRecv <= MostInFlight(c)
    ensures WireBytes(s.data) <= MostInFlight(c) * FullWire(c)
    ensures c.handles == 1 ==> WireBytes(s.data) <= c.window
  {
    hide Config.MaxInFlight, WireBytes, FullWire;
    CountOfSequences(s.data, s.rx.lastRecv, s.tx.lastSend);
    WireBytesBound(c, s.data);
    FullWireOfWhole(c);
    MulMonotone(|s.data|, MostInFlight(c), FullWire(c));
    MulMonotone(FullWire(c), c.mtu, MostInFlight(c));
  }

  lemma {:induction false} WireBytesOfWords(data: seq<Packet>)
    ensures WireBytes(DataWords(data)) == WireBytes(data)
  {
    if data != [] {
      WireBytesOfWords(data[1..]);
      assert DataWords(data)[1..] == DataWords(data[1..]);
    }
  }

  /** The same bound for the machine itself. */
  lemma MachineWindowSafety(c: Config, run: seq<Action>)
    requires c.Valid() && c.WholePackets() && Run(Words, c, Init(c), run).Reached?
    ensures var s := Run(Words, c, Init(c), run).s;
            && Words.Diff(s.tx.lastSend, s.tx.lastRecv) <= MostInFlight(c)
            && WireBytes(s.data) <= MostInFlight(c) * FullWire(c)
            && (c.handles == 1 ==> WireBytes(s.data) <= c.window)
  {
    hide WireBytes, FullWire;
    WordsRefineUnbounded(c, run);
    WindowSafety(c, run);
    InvRun(c, run);
    var s := Run(Unbounded, c, Init(c), run).s;
    WireBytesOfWords(s.data);
    MachineBlocked(c, s);
  }

  // ---------- Progress ----------

  /** Nothing is under way and the sender knows the receiver's latest ACK. */
  ghost predicate Settled(s: State) {
    s.data == [] && s.acks == [] && s.tx.receiveInitial && s.tx.lastRecv == s.rx.lastSend
  }

  /** How many sequence numbers lie between the last datagram that was taken in and the next one to send. */
  function TailLost(s: State): int {
    s.tx.lastSend - s.rx.lastRecv
  }

  /** The sequence numbers of the datagrams that the run lost, in the order of loss. */
  function LostBy(c: Config, run: seq<Action>): seq<int>
    requires c.Valid() && Run(Unbounded, c, Init(c), run).Reached?
  {
    if run == [] then []
    else
      var front, a := run[..|run| - 1], run[|run| - 1];
      LostBy(c, front)
      + if a.LoseData? then [Run(Unbounded, c, Init(c), front).s.data[a.i].seqno] else []
  }

  function CountLosses(run: seq<Action>): nat {
    if run == [] then 0 else CountLosses(run[..|run| - 1]) + if run[|run| - 1].LoseData? then 1 else 0
  }

  function CountTaken(run: seq<Action>): nat {
    if run == [] then 0 else CountTaken(run[..|run| - 1]) + if run[|run| - 1].AcquireRecv? then 1 else 0
  }

  ghost predicate UnderWay(s: State, q: int) {
    exists i :: 0 <= i < |s.data| && s.data[i].seqno == q
  }

  /** The fate of every datagram: of those not passed by the receiver each is under way or lost, and not both. */
  ghost predicate Fates(s: State, lost: seq<int>) {
    && (forall q :: s.rx.lastRecv <= q < s.tx.lastSend ==> UnderWay(s, q) || q in lost)
    && (forall q :: q in lost ==> q < s.tx.lastSend && !UnderWay(s, q))
  }

  lemma FatesStep(c: Config, s: State, lost: seq<int>, a: Action)
    requires c.Valid() && c.WholePackets() && Inv(c, s) && Fates(s, lost) && Enabled(Unbounded, c, s, a)
    ensures Fates(Next(Unbounded, c, s, a), lost + if a.LoseData? then [s.data[a.i].seqno] else [])
  {
    var t := Next(Unbounded, c, s, a);
    var more := if a.LoseData? then [s.data[a.i].seqno] else [];
    forall q | t.rx.lastRecv <= q < t.tx.lastSend
      ensures UnderWay(t, q) || q in lost + more
    {
      if a.ReleaseSend? && q == s.tx.lastSend {
        assert t.data[|s.data|].seqno == q;
      } else if i :| 0 <= i < |s.data| && s.data[i].seqno == q {
        StillUnderWay(c, s, a, i);
      }
    }
    forall q | q in lost + more
      ensures q < t.tx.lastSend && !UnderWay(t, q)
    {
      if j :| 0 <= j < |t.data| && t.data[j].seqno == q {
        CameFrom(c, s, a, j);
      }
    }
  }

  /** A datagram stays under way unless it is lost or taken in. */
  lemma StillUnderWay(c: Config, s: State, a: Action, i: nat)
    requires c.Valid() && c.WholePackets() && Inv(c, s) && Enabled(Unbounded, c, s, a) && i < |s.data|
    ensures var t := Next(Unbounded, c, s, a);
            UnderWay(t, s.data[i].seqno) || (a.LoseData? && a.i == i) || s.data[i].seqno < t.rx.lastRecv
  {
    var t := Next(Unbounded, c, s, a);
    if a.LoseData? {
      if i != a.i {
        assert t.data[if i < a.i then i else i - 1] == s.data[i];
      }
    } else if a.AcquireRecv? {
      if i > 0 {
        assert t.data[i - 1] == s.data[i];
      }
    } else {
      assert t.data[i] == s.data[i];
    }
  }

  /** A datagram under way after a step is a new one, or it was there before and is not the lost one. */
  lemma CameFrom(c: Config, s: State, a: Action, j: nat)
    requires c.Valid() && c.WholePackets() && Inv(c, s) && Enabled(Unbounded, c, s, a)
    requires j < |Next(Unbounded, c, s, a).data|
    ensures var q := Next(Unbounded, c, s, a).data[j].seqno;
            || (a.ReleaseSend? && q == s.tx.lastSend)
            || (UnderWay(s, q) && (a.LoseData? ==> q != s.data[a.i].seqno))
  {
    var t := Next(Unbounded, c, s, a);
    if a.LoseData? {
      assert t.data[j] == s.data[if j < a.i then j else j + 1];
    } else if a.AcquireRecv? {
      assert t.data[j] == s.data[j + 1];
    } else if j < |s.data| {
      assert t.data[j] == s.data[j];
    }
  }

  /** The account of a run: every datagram that was sent was taken in, lost or is under way, and those behind the
      receiver's last one that are not under way are exactly lost ones. */
  lemma {:induction false} Account(c: Config, run: seq<Action>)
    requires c.Valid() && c.WholePackets() && Run(Unbounded, c, Init(c), run).Reached?
    ensures var s := Run(Unbounded, c, Init(c), run).s;
            && s.tx.lastSend == CountTaken(run) + CountLosses(run) + |s.data|
            && |LostBy(c, run)| == CountLosses(run) && Fates(s, LostBy(c, run))
    decreases |run|
  {
    if run != [] {
      var front, a := run[..|run| - 1], run[|run| - 1];
      Account(c, front);
      InvRun(c, front);
      FatesStep(c, Run(Unbounded, c, Init(c), front).s, LostBy(c, front), a);
    }
  }

  /** Something was reported as dropped exactly when a lost datagram was passed. */
  ghost predicate Noticed(notices: nat, lastRecv: int, lost: seq<int>) {
    notices > 0 <==> exists q :: q in lost && q < lastRecv
  }

  lemma NoticedLoss(notices: nat, lastRecv: int, lost: seq<int>, x: int)
    requires Noticed(notices, lastRecv, lost) && x >= lastRecv
    ensures Noticed(notices, lastRecv, lost + [x])
  {
    if q :| q in lost && q < lastRecv {
      assert q in lost + [x];
    }
  }

  /** Taking in the oldest datagram under way passes those before it, which are all lost, and no other lost one. */
  lemma NoticedReceive(s: State, lost: seq<int>, seqno: int)
    requires s.data != [] && s.data[0].seqno == seqno && s.rx.lastRecv <= seqno < s.tx.lastSend
    requires forall i :: 0 < i < |s.data| ==> seqno < s.data[i].seqno
    requires Fates(s, lost) && Noticed(s.notices, s.rx.lastRecv, lost)
    ensures Noticed(s.notices + if s.rx.lastRecv != seqno then 1 else 0, seqno + 1, lost)
  {
    assert UnderWay(s, seqno);
    if s.rx.lastRecv != seqno {
      assert !UnderWay(s, s.rx.lastRecv);
    }
  }

  lemma NoticedStep(c: Config, s: State, lost: seq<int>, a: Action)
    requires c.Valid() && c.WholePackets() && Inv(c, s) && Fates(s, lost)
    requires Noticed(s.notices, s.rx.lastRecv, lost) && Enabled(Unbounded, c, s, a)
    ensures var t := Next(Unbounded, c, s, a);
            Noticed(t.notices, t.rx.lastRecv, lost + if a.LoseData? then [s.data[a.i].seqno] else [])
  {
    hide Noticed, Fates;
    assert lost + [] == lost;
    if a.AcquireRecv? {
      NoticedReceive(s, lost, s.data[0].seqno);
    } else if a.LoseData? {
      NoticedLoss(s.notices, s.rx.lastRecv, lost, s.data[a.i].seqno);
    }
  }

  /** A datagram is reported as dropped exactly when one was lost and a later one has come in since. */
  lemma {:induction false} NoticesExactly(c: Config, run: seq<Action>)
    requires c.Valid() && c.WholePackets() && Run(Unbounded, c, Init(c), run).Reached?
    ensures var s := Run(Unbounded, c, Init(c), run).s; Noticed(s.notices, s.rx.lastRecv, LostBy(c, run))
    decreases |run|
  {
    if run == [] {
      assert Noticed(0, 0, []);
    } else {
      hide Noticed, Fates, Inv, Next, Enabled;
      var front, a := run[..|run| - 1], run[|run| - 1];
      NoticesExactly(c, front);
      Account(c, front);
      InvRun(c, front);
      NoticedStep(c, Run(Unbounded, c, Init(c), front).s, LostBy(c, front), a);
    }
  }

  /** The datagrams that were lost after the last one that was taken in. */
  function TailLosses(c: Config, run: seq<Action>): set<int>
    requires c.Valid() && Run(Unbounded, c, Init(c), run).Reached?
  {
    set q | q in LostBy(c, run) && q >= Run(Unbounded, c, Init(c), run).s.rx.lastRecv
  }

  function Range(lo: int, hi: int): (r: set<int>)
    requires lo <= hi
    ensures forall q :: q in r <==> lo <= q < hi
    ensures |r| == hi - lo
    decreases hi - lo
  {
    if lo == hi then {} else Range(lo, hi - 1) + {hi - 1}
  }

  function Elements(s: seq<int>): (r: set<int>)
    ensures forall q :: q in r <==> q in s
    ensures |r| <= |s|
  {
    if s == [] then {} else Elements(s[..|s| - 1]) + {s[|s| - 1]}
  }

  lemma SubsetSize(a: set<int>, b: set<int>)
    requires a <= b
    ensures |a| <= |b|
  {
    assert b == a + (b - a);
  }

  /** With nothing under way the sequence numbers from the receiver's next one on are exactly those lost since. */
  lemma TailIsLost(c: Config, run: seq<Action>)
    requires c.Valid() && c.WholePackets() && Run(Unbounded, c, Init(c), run).Reached?
    requires Run(Unbounded, c, Init(c), run).s.data == []
    ensures var s := Run(Unbounded, c, Init(c), run).s;
            && (forall q :: q in TailLosses(c, run) <==> s.rx.lastRecv <= q < s.tx.lastSend)
            && |TailLosses(c, run)| == TailLost(s) <= CountLosses(run)
  {
    Account(c, run);
    InvRun(c, run);
    var s := Run(Unbounded, c, Init(c), run).s;
    assert TailLosses(c, run) == Range(s.rx.lastRecv, s.tx.lastSend);
    SubsetSize(TailLosses(c, run), Elements(LostBy(c, run)));
  }

  /** No deadlock: once everything has settled the sender may go on, in either reading of the counters, if at most
      window minus the ACK interval of the datagrams sent since the last arrival were lost; so surely if the whole
      run lost no more than that. */
  lemma NoDeadlock(c: Config, run: seq<Action>)
    requires c.Valid() && c.WholePackets() && c.MaxInFlight() >= 1 && Run(Unbounded, c, Init(c), run).Reached?
    requires Settled(Run(Unbounded, c, Init(c), run).s)
    requires || |TailLosses(c, run)| <= c.MaxInFlight() - c.AckEvery()
             || CountLosses(run) <= c.MaxInFlight() - c.AckEvery()
    ensures !Run(Unbounded, c, Init(c), run).s.tx.Blocked(Unbounded)
    ensures Run(Words, c, Init(c), run).Reached? && !Run(Words, c, Init(c), run).s.tx.Blocked(Words)
  {
    TailIsLost(c, run);
    SettledUnblocked(c, run);
    WordsRefineUnbounded(c, run);
  }

  lemma SettledUnblocked(c: Config, run: seq<Action>)
    requires c.Valid() && c.WholePackets() && c.MaxInFlight() >= 1 && Run(Unbounded, c, Init(c), run).Reached?
    ensures var s := Run(Unbounded, c, Init(c), run).s;
            && TailLost(s) <= MostInFlight(c)
            && (Settled(s) && TailLost(s) <= c.MaxInFlight() - c.AckEvery() ==> !s.tx.Blocked(Unbounded))
  {
    InvRun(c, run);
  }

  ghost predicate Lossless(run: seq<Action>) {
    forall i :: 0 <= i < |run| ==> !run[i].LoseData? && !run[i].LoseAck?
  }

  /** Without losses every datagram between R and S is under way, in order, and so is the latest ACK. */
  ghost predicate Complete(s: State) {
    && |s.data| == s.tx.lastSend - s.rx.lastRecv
    && (forall i :: 0 <= i < |s.data| ==> s.data[i].seqno == s.rx.lastRecv + i)
    && (if s.acks == [] then s.tx.receiveInitial && s.tx.lastRecv == s.rx.lastSend
        else s.acks[|s.acks| - 1].seqno == s.rx.lastSend)
    && s.notices == 0
  }

  lemma CompleteStep(c: Config, s: State, a: Action)
    requires c.Valid() && c.WholePackets() && Inv(c, s) && Complete(s) && Enabled(Unbounded, c, s, a)
    requires !a.LoseData? && !a.LoseAck?
    ensures Complete(Next(Unbounded, c, s, a))
  {
  }

  /** A lossless run reports no datagram out of order and never deadlocks: a blocked sender always has
      a datagram or an ACK still under way. */
  lemma {:induction false} LosslessRun(c: Config, run: seq<Action>)
    requires c.Valid() && c.WholePackets() && Lossless(run) && Run(Unbounded, c, Init(c), run).Reached?
    ensures var s := Run(Unbounded, c, Init(c), run).s;
            && Complete(s)
            && (c.MaxInFlight() >= 1 && s.tx.Blocked(Unbounded) ==> s.data != [] || s.acks != [])
    decreases |run|
  {
    InvRun(c, run);
    if run != [] {
      var front := run[..|run| - 1];
      assert Lossless(front);
      LosslessRun(c, front);
      InvRun(c, front);
      CompleteStep(c, Run(Unbounded, c, Init(c), front).s, run[|run| - 1]);
    }
  }

  // ---------- The bound on losses is exact, and a deadlock is final ----------

  /** n datagrams sent one by one, each taken in at once. */
  function Exchange(n: nat): seq<Action> {
    if n == 0 then [] else Exchange(n - 1) + [AcquireSend, ReleaseSend(HEADER_SIZE, []), AcquireRecv]
  }

  function LostBurst(n: nat): seq<Action> {
    if n == 0 then [] else LostBurst(n - 1) + [AcquireSend, ReleaseSend(HEADER_SIZE, []), LoseData(0)]
  }

  lemma {:induction false} RunAppend(n: Counting, c: Config, s: State, run: seq<Action>, more: seq<Action>)
    requires c.Valid() && Run(n, c, s, run).Reached?
    ensures Run(n, c, s, run + more) == Run(n, c, Run(n, c, s, run).s, more)
    decreases |more|
  {
    if more == [] {
      assert run + more == run;
    } else {
      RunAppend(n, c, s, run, more[..|more| - 1]);
      assert (run + more)[..|run + more| - 1] == run + more[..|more| - 1];
    }
  }

  /** The state after n datagrams taken in without an ACK being due, and m more lost. */
  function Starved(c: Config, n: nat, m: nat): State
    requires c.Valid()
  {
    State(Seqs(n + m, 0, c.MaxInFlight(), true, 0),
          Seqs(0, n, c.MaxInFlight(), n > 0, c.MaxInFlight() / NUM_BUFFS), 0, [], [], 0)
  }

  lemma ThreeSteps(n: Counting, c: Config, s: State, a: Action, b: Action, d: Action)
    requires c.Valid() && Enabled(n, c, s, a)
    requires var t := Next(n, c, s, a); Enabled(n, c, t, b) && Enabled(n, c, Next(n, c, t, b), d)
    ensures Run(n, c, s, [a, b, d]) == Reached(Next(n, c, Next(n, c, Next(n, c, s, a), b), d))
  {
    assert [a, b, d][..2] == [a, b] && [a, b][..1] == [a] && [a][..0] == [];
    assert Run(n, c, s, [a]) == Reached(Next(n, c, s, a));
    assert Run(n, c, s, [a, b]) == Reached(Next(n, c, Next(n, c, s, a), b));
  }

  lemma {:induction false} ExchangeReaches(c: Config, n: nat)
    requires c.Valid() && n < c.AckEvery() && n < c.MaxInFlight()
    ensures Run(Unbounded, c, Starved(c, 0, 0), Exchange(n)) == Reached(Starved(c, n, 0))
  {
    if n > 0 {
      ExchangeReaches(c, n - 1);
      RunAppend(Unbounded, c, Starved(c, 0, 0), Exchange(n - 1),
                [AcquireSend, ReleaseSend(HEADER_SIZE, []), AcquireRecv]);
      ThreeSteps(Unbounded, c, Starved(c, n - 1, 0), AcquireSend, ReleaseSend(HEADER_SIZE, []), AcquireRecv);
    }
  }

  lemma {:induction false} LostBurstReaches(c: Config, n: nat, m: nat)
    requires c.Valid() && c.datagram && n + m <= c.MaxInFlight()
    ensures Run(Unbounded, c, Starved(c, n, 0), LostBurst(m)) == Reached(Starved(c, n, m))
  {
    if m > 0 {
      LostBurstReaches(c, n, m - 1);
      RunAppend(Unbounded, c, Starved(c, n, 0), LostBurst(m - 1),
                [AcquireSend, ReleaseSend(HEADER_SIZE, []), LoseData(0)]);
      ThreeSteps(Unbounded, c, Starved(c, n, m - 1), AcquireSend, ReleaseSend(HEADER_SIZE, []), LoseData(0));
    }
  }

  // Bursts: several handles taken while the window is open, then sent.

  function Repeat(a: Action, k: nat): seq<Action> {
    if k == 0 then [] else Repeat(a, k - 1) + [a]
  }

  /** As Starved(c, n, m), with held handles and the last d datagrams, of b bytes each, still under way. */
  function Busy(c: Config, n: nat, m: nat, held: nat, d: nat, b: nat): State
    requires c.Valid()
  {
    Starved(c, n, m).(held := held, data := seq(d, i => Packet(n + m - d + i, b, false)))
  }

  lemma OneStep(n: Counting, c: Config, s: State, run: seq<Action>, a: Action)
    requires c.Valid() && Run(n, c, s, run).Reached? && Enabled(n, c, Run(n, c, s, run).s, a)
    ensures Run(n, c, s, run + [a]) == Reached(Next(n, c, Run(n, c, s, run).s, a))
  {
    assert (run + [a])[..|run|] == run;
  }

  lemma TakeOne(c: Config, n: nat, m: nat, held: nat, d: nat, b: nat)
    requires c.Valid() && n + m < c.MaxInFlight() && held < c.handles
    ensures Enabled(Unbounded, c, Busy(c, n, m, held, d, b), AcquireSend)
    ensures Next(Unbounded, c, Busy(c, n, m, held, d, b), AcquireSend) == Busy(c, n, m, held + 1, d, b)
  {
  }

  lemma {:induction false} AcquireMany(c: Config, n: nat, m: nat, k: nat, d: nat, b: nat)
    requires c.Valid() && n + m < c.MaxInFlight() && k <= c.handles
    ensures Run(Unbounded, c, Busy(c, n, m, 0, d, b), Repeat(AcquireSend, k)) == Reached(Busy(c, n, m, k, d, b))
  {
    hide Busy, Enabled, Next, Config.Valid;
    if k > 0 {
      AcquireMany(c, n, m, k - 1, d, b);
      TakeOne(c, n, m, k - 1, d, b);
      OneStep(Unbounded, c, Busy(c, n, m, 0, d, b), Repeat(AcquireSend, k - 1), AcquireSend);
    }
  }

  lemma SendOne(c: Config, n: nat, m: nat, held: nat, d: nat, b: nat)
    requires c.Valid() && c.WholePackets() && held > 0 && HEADER_SIZE <= b <= c.full
    ensures Enabled(Unbounded, c, Busy(c, n, m, held, d, b), ReleaseSend(b, []))
    ensures Next(Unbounded, c, Busy(c, n, m, held, d, b), ReleaseSend(b, [])) == Busy(c, n, m + 1, held - 1, d + 1, b)
  {
    assert seq(d + 1, i => Packet(n + (m + 1) - (d + 1) + i, b, false))
        == seq(d, i => Packet(n + m - d + i, b, false)) + [Packet(n + m, b, false)];
  }

  lemma {:induction false} SendMany(c: Config, n: nat, m: nat, held: nat, k: nat, d: nat, b: nat)
    requires c.Valid() && c.WholePackets() && k <= held && HEADER_SIZE <= b <= c.full
    ensures Run(Unbounded, c, Busy(c, n, m, held, d, b), Repeat(ReleaseSend(b, []), k))
         == Reached(Busy(c, n, m + k, held - k, d + k, b))
  {
    hide Busy, Enabled, Next, Config.MaxInFlight, Config.Valid, Config.WholePackets;
    if k > 0 {
      SendMany(c, n, m, held, k - 1, d, b);
      SendOne(c, n, m + (k - 1), held - (k - 1), d + (k - 1), b);
      OneStep(Unbounded, c, Busy(c, n, m, held, d, b), Repeat(ReleaseSend(b, []), k - 1), ReleaseSend(b, []));
    }
  }

  lemma LoseOne(c: Config, n: nat, m: nat, d: nat, b: nat)
    requires c.Valid() && c.datagram && d > 0
    ensures Enabled(Unbounded, c, Busy(c, n, m, 0, d, b), LoseData(0))
    ensures Next(Unbounded, c, Busy(c, n, m, 0, d, b), LoseData(0)) == Busy(c, n, m, 0, d - 1, b)
  {
    assert Without(seq(d, i => Packet(n + m - d + i, b, false)), 0)
        == seq(d - 1, i => Packet(n + m - (d - 1) + i, b, false));
  }

  lemma {:induction false} LoseMany(c: Config, n: nat, m: nat, k: nat, d: nat, b: nat)
    requires c.Valid() && c.datagram && k <= d
    ensures Run(Unbounded, c, Busy(c, n, m, 0, d, b), Repeat(LoseData(0), k)) == Reached(Busy(c, n, m, 0, d - k, b))
  {
    hide Busy, Enabled, Next, Config.Valid;
    if k > 0 {
      LoseMany(c, n, m, k - 1, d, b);
      LoseOne(c, n, m, d - (k - 1), b);
      OneStep(Unbounded, c, Busy(c, n, m, 0, d, b), Repeat(LoseData(0), k - 1), LoseData(0));
    }
  }

  function Burst(k: nat, b: nat): seq<Action> {
    Repeat(AcquireSend, k) + Repeat(ReleaseSend(b, []), k)
  }

  lemma BurstReaches(c: Config, n: nat, m: nat, k: nat, d: nat, b: nat)
    requires c.Valid() && c.WholePackets() && n + m < c.MaxInFlight() && k <= c.handles && HEADER_SIZE <= b <= c.full
    ensures Run(Unbounded, c, Busy(c, n, m, 0, d, b), Burst(k, b)) == Reached(Busy(c, n, m + k, 0, d + k, b))
  {
    hide Busy;
    AcquireMany(c, n, m, k, d, b);
    SendMany(c, n, m, k, k, d, b);
    RunAppend(Unbounded, c, Busy(c, n, m, 0, d, b), Repeat(AcquireSend, k), Repeat(ReleaseSend(b, []), k));
  }

  /** k datagrams sent one by one, with nothing taken in. */
  function Singles(k: nat, b: nat): seq<Action> {
    if k == 0 then [] else Singles(k - 1, b) + Burst(1, b)
  }

  lemma {:induction false} SinglesReach(c: Config, k: nat, b: nat)
    requires c.Valid() && c.WholePackets() && k <= c.MaxInFlight() && HEADER_SIZE <= b <= c.full
    ensures Run(Unbounded, c, Busy(c, 0, 0, 0, 0, b), Singles(k, b)) == Reached(Busy(c, 0, k, 0, k, b))
  {
    hide Busy, Burst, Enabled, Next, Config.MaxInFlight, Config.WholePackets;
    if k > 0 {
      SinglesReach(c, k - 1, b);
      BurstReaches(c, 0, k - 1, 1, k - 1, b);
      RunAppend(Unbounded, c, Busy(c, 0, 0, 0, 0, b), Singles(k - 1, b), Burst(1, b));
    }
  }

  lemma StartReaches(c: Config, b: nat)
    requires c.Valid()
    ensures Run(Unbounded, c, Init(c), [RecvAck]) == Reached(Starved(c, 0, 0))
    ensures Starved(c, 0, 0) == Busy(c, 0, 0, 0, 0, b)
  {
    assert [RecvAck][..0] == [];
    assert seq(0, i => Packet(0 + 0 - 0 + i, b, false)) == [];
  }

  /** With an open window and every handle taken, as many full datagrams as possible get under way. */
  lemma FillingRun(c: Config) returns (run: seq<Action>)
    requires c.Valid() && c.WholePackets() && c.MaxInFlight() >= 1
    ensures Run(Unbounded, c, Init(c), run).Reached?
    ensures WireBytes(Run(Unbounded, c, Init(c), run).s.data) == MostInFlight(c) * FullWire(c)
  {
    hide Run, Busy, WireBytes, FullWire, MostInFlight;
    run := BusyRun(c, c.full);
    BusyWire(c, MostInFlight(c), MostInFlight(c));
  }

  lemma BusyRun(c: Config, b: nat) returns (run: seq<Action>)
    requires c.Valid() && c.WholePackets() && c.MaxInFlight() >= 1 && HEADER_SIZE <= b <= c.full
    ensures Run(Unbounded, c, Init(c), run) == Reached(Busy(c, 0, MostInFlight(c), 0, MostInFlight(c), b))
  {
    var w, h := c.MaxInFlight(), c.handles;
    var v, all := w - 1, w + h - 1;
    hide *;
    StartReaches(c, b);
    SinglesReach(c, v, b);
    BurstReaches(c, 0, v, h, v, b);
    run := Chain(c, [RecvAck], Singles(v, b), Burst(h, b), Busy(c, 0, 0, 0, 0, b), Busy(c, 0, v, 0, v, b),
                 Busy(c, 0, all, 0, all, b));
  }

  /** Runs end to end. */
  lemma Chain(c: Config, x: seq<Action>, y: seq<Action>, z: seq<Action>, s: State, t: State, u: State)
    returns (run: seq<Action>)
    requires c.Valid() && Run(Unbounded, c, Init(c), x) == Reached(s)
    requires Run(Unbounded, c, s, y) == Reached(t) && Run(Unbounded, c, t, z) == Reached(u)
    ensures Run(Unbounded, c, Init(c), run) == Reached(u)
  {
    hide Run;
    RunAppend(Unbounded, c, s, y, z);
    RunAppend(Unbounded, c, Init(c), x, y + z);
    run := x + (y + z);
  }

  lemma {:induction false} UniformWire(data: seq<Packet>, b: nat)
    requires forall i :: 0 <= i < |data| ==> data[i].bytes == b
    ensures WireBytes(data) == |data| * (b + PROTO_HEADER_SIZE)
  {
    if data != [] {
      UniformWire(data[1..], b);
      Distribute(b + PROTO_HEADER_SIZE, |data| - 1, 1);
    }
  }

  lemma BusyWire(c: Config, m: nat, d: nat)
    requires c.Valid() && c.WholePackets()
    ensures WireBytes(Busy(c, 0, m, 0, d, c.full).data) == d * FullWire(c)
  {
    FullWireOfWhole(c);
    UniformWire(Busy(c, 0, m, 0, d, c.full).data, c.full);
  }

  /** If datagrams stay whole only the handles matter: the bytes in flight stay within the receiver's socket buffer on
      every run exactly when as many full datagrams as can be under way fit into it. */
  lemma WindowExactly(c: Config)
    requires c.Valid() && c.WholePackets() && c.MaxInFlight() >= 1
    ensures (forall run :: Run(Unbounded, c, Init(c), run).Reached? ==>
               WireBytes(Run(Unbounded, c, Init(c), run).s.data) <= c.window)
            <==> MostInFlight(c) * FullWire(c) <= c.window
  {
    hide WireBytes, FullWire, Run, MostInFlight;
    var filling := FillingRun(c);
    forall run | Run(Unbounded, c, Init(c), run).Reached?
      ensures WireBytes(Run(Unbounded, c, Init(c), run).s.data) <= MostInFlight(c) * FullWire(c)
    {
      WindowSafety(c, run);
    }
  }

  /** A run that starves the sender by k lost datagrams. */
  lemma StarvingRun(c: Config, k: int) returns (run: seq<Action>)
    requires c.Valid() && c.WholePackets() && c.datagram
    requires c.MaxInFlight() >= 1 && c.MaxInFlight() - c.AckEvery() < k <= MostInFlight(c)
    ensures Run(Unbounded, c, Init(c), run).Reached?
    ensures var s := Run(Unbounded, c, Init(c), run).s;
            Settled(s) && s.held == 0 && s.tx.Blocked(Unbounded) && TailLost(s) == k
  {
    var w := c.MaxInFlight();
    var n := if k <= w then w - k else 0;
    var m := w - 1 - n;
    run := StarvedBurst(c, n, m, k - m);
    StarvedIsBlocked(c, n, k);
  }

  /** n datagrams taken in without an ACK being due, and m lost one by one. */
  lemma StarvedSingly(c: Config, n: nat, m: nat) returns (run: seq<Action>)
    requires c.Valid() && c.datagram && n < c.AckEvery() && n < c.MaxInFlight() && n + m <= c.MaxInFlight()
    ensures Run(Unbounded, c, Init(c), run) == Reached(Starved(c, n, m))
  {
    hide *;
    StartReaches(c, 0);
    ExchangeReaches(c, n);
    LostBurstReaches(c, n, m);
    run := Chain(c, [RecvAck], Exchange(n), LostBurst(m), Starved(c, 0, 0), Starved(c, n, 0), Starved(c, n, m));
  }

  /** A burst of j that is lost altogether. */
  lemma LostAtOnce(c: Config, n: nat, m: nat, j: nat, b: nat)
    requires c.Valid() && c.WholePackets() && c.datagram
    requires n + m < c.MaxInFlight() && j <= c.handles && HEADER_SIZE <= b <= c.full
    ensures Run(Unbounded, c, Busy(c, n, m, 0, 0, b), Burst(j, b) + Repeat(LoseData(0), j))
         == Reached(Busy(c, n, m + j, 0, 0, b))
  {
    hide *;
    BurstReaches(c, n, m, j, 0, b);
    LoseMany(c, n, m + j, j, j, b);
    RunAppend(Unbounded, c, Busy(c, n, m, 0, 0, b), Burst(j, b), Repeat(LoseData(0), j));
  }

  lemma StarvedBurst(c: Config, n: nat, m: nat, j: nat) returns (run: seq<Action>)
    requires c.Valid() && c.WholePackets() && c.datagram
    requires n < c.AckEvery() && n + m + 1 == c.MaxInFlight() && j <= c.handles
    ensures Run(Unbounded, c, Init(c), run) == Reached(Starved(c, n, m + j))
  {
    BusyIsStarved(c, n, m, HEADER_SIZE);
    BusyIsStarved(c, n, m + j, HEADER_SIZE);
    LostAtOnce(c, n, m, j, HEADER_SIZE);
    hide *;
    var front := StarvedSingly(c, n, m);
    var last := Burst(j, HEADER_SIZE) + Repeat(LoseData(0), j);
    RunAppend(Unbounded, c, Init(c), front, last);
    run := front + last;
  }

  lemma BusyIsStarved(c: Config, n: nat, m: nat, b: nat)
    requires c.Valid()
    ensures Busy(c, n, m, 0, 0, b) == Starved(c, n, m)
  {
    assert seq(0, i => Packet(n + m - 0 + i, b, false)) == [];
  }

  lemma StarvedIsBlocked(c: Config, n: nat, m: nat)
    requires c.Valid() && n + m >= c.MaxInFlight()
    ensures var s := Starved(c, n, m);
            Settled(s) && s.held == 0 && s.tx.Blocked(Unbounded) && TailLost(s) == m
  {
  }

  /** The bound is exact: a settled and blocked state with k datagrams lost since the last arrival is reachable
      exactly when there are packets to lose, k is more than NoDeadlock allows, and no more than can be under way at
      all. */
  lemma BoundIsTight(c: Config, k: int)
    requires c.Valid() && c.WholePackets() && c.MaxInFlight() >= 1
    ensures (exists run :: StarvedBy(c, run, k))
            <==> c.datagram && c.MaxInFlight() - c.AckEvery() < k <= MostInFlight(c)
  {
    if c.datagram && c.MaxInFlight() - c.AckEvery() < k <= MostInFlight(c) {
      var run := StarvingRun(c, k);
      assert StarvedBy(c, run, k);
    }
    forall run | StarvedBy(c, run, k)
      ensures c.datagram && c.MaxInFlight() - c.AckEvery() < k <= MostInFlight(c)
    {
      SettledUnblocked(c, run);
      StreamLossless(c, run);
      if !c.datagram {
        LosslessRun(c, run);
      }
    }
  }

  /** A stream loses nothing. */
  lemma {:induction false} StreamLossless(c: Config, run: seq<Action>)
    requires c.Valid() && Run(Unbounded, c, Init(c), run).Reached?
    ensures !c.datagram ==> Lossless(run)
    decreases |run|
  {
    if run != [] {
      StreamLossless(c, run[..|run| - 1]);
    }
  }

  /** The run ends settled and blocked, with k datagrams lost since the last arrival. */
  ghost predicate StarvedBy(c: Config, run: seq<Action>, k: int)
    requires c.Valid()
  {
    match Run(Unbounded, c, Init(c), run)
    case Stuck => false
    case Reached(s) => Settled(s) && s.tx.Blocked(Unbounded) && TailLost(s) == k
  }

  /** What holds on every link and in either reading: the windows are the receiver's, and nothing is acknowledged
      before anything is received. */
  ghost predicate Basics(c: Config, s: State)
    requires c.Valid()
  {
    && s.rx.maxInFlight == c.MaxInFlight() && (s.tx.receiveInitial ==> s.tx.maxInFlight == c.MaxInFlight())
    && (forall i :: 0 <= i < |s.acks| ==> s.acks[i].window == c.MaxInFlight())
    && (!s.rx.receiveInitial ==>
          s.rx.lastRecv == 0 && s.tx.lastRecv == 0 && forall i :: 0 <= i < |s.acks| ==> s.acks[i].seqno == 0)
  }

  lemma BasicsStep(n: Counting, c: Config, s: State, a: Action)
    requires c.Valid() && Basics(c, s) && Enabled(n, c, s, a)
    ensures Basics(c, Next(n, c, s, a))
  {
  }

  lemma {:induction false} BasicsRun(n: Counting, c: Config, run: seq<Action>)
    requires c.Valid() && Run(n, c, Init(c), run).Reached?
    ensures Basics(c, Run(n, c, Init(c), run).s)
    decreases |run|
  {
    if run != [] {
      var front := run[..|run| - 1];
      BasicsRun(n, c, front);
      BasicsStep(n, c, Run(n, c, Init(c), front).s, run[|run| - 1]);
    }
  }

  /** Blocked, with nothing left that could tell the sender anything new. */
  ghost predicate Dead(n: Counting, c: Config, s: State)
    requires c.Valid()
  {
    && Basics(c, s) && s.data == [] && s.held == 0 && s.tx.receiveInitial && s.tx.Blocked(n)
    && (forall i :: 0 <= i < |s.acks| ==> s.acks[i].seqno == s.tx.lastRecv)
  }

  lemma DeadStep(n: Counting, c: Config, s: State, a: Action)
    requires c.Valid() && Dead(n, c, s) && Enabled(n, c, s, a)
    ensures Dead(n, c, Next(n, c, s, a)) && Next(n, c, s, a).tx == s.tx
  {
  }

  /** A deadlock is final, on every link and in either reading: from a settled, blocked state without held handles no
      continuation, whatever it loses or repeats, ever sends another datagram. BasicsRun says that reachable states
      have what this needs of a state. */
  lemma {:induction false} DeadlockIsFinal(n: Counting, c: Config, s: State, run: seq<Action>)
    requires c.Valid() && Basics(c, s) && Settled(s) && s.held == 0 && s.tx.Blocked(n)
    requires Run(n, c, s, run).Reached?
    ensures var t := Run(n, c, s, run).s;
            Dead(n, c, t) && t.tx.Blocked(n) && t.tx.lastSend == s.tx.lastSend
    decreases |run|
  {
    if run != [] {
      var front := run[..|run| - 1];
      DeadlockIsFinal(n, c, s, front);
      DeadStep(n, c, Run(n, c, s, front).s, run[|run| - 1]);
    }
  }
}
