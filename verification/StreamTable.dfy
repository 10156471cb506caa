/** The life cycle of a client's device and streams on the server (server/ClientHandler.cpp). */
module StreamTable {

  // ---------- an independent account of what happens to a device ----------

  datatype Event = Made | Unmade | Opened(stream: nat) | Closed(stream: nat)

  /** live: a device exists; devices: how many were made; open: the streams not closed yet, with the number of the
      device they were opened on; ever: all streams there were. */
  datatype Ledger = Ledger(live: bool, devices: nat, open: map<nat, nat>, ever: set<nat>) | Illegal

  /** A device is made when there is none and unmade when there is one; a stream is opened once, and closed at most
      once, while the device it was opened on exists. */
  function Apply(l: Ledger, e: Event): Ledger {
    if l.Illegal? then Illegal
    else
      match e
      case Made => if l.live then Illegal else l.(live := true, devices := l.devices + 1)
      case Unmade => if l.live then l.(live := false) else Illegal
      case Opened(s) =>
        if l.live && s !in l.ever then l.(open := l.open[s := l.devices], ever := l.ever + {s}) else Illegal
      case Closed(s) =>
        if l.live && s in l.open && l.open[s] == l.devices then l.(open := l.open - {s}) else Illegal
  }

  function Replay(trace: seq<Event>): Ledger {
    if trace == [] then Ledger(false, 0, map[], {}) else Apply(Replay(trace[..|trace| - 1]), trace[|trace| - 1])
  }

  lemma ReplayMore(trace: seq<Event>, e: Event)
    ensures Replay(trace + [e]) == Apply(Replay(trace), e)
  {
    assert (trace + [e])[..|trace|] == trace;
  }

  /** An account in order closes no stream twice. */
  lemma ClosedAtMostOnce(trace: seq<Event>, s: nat, i: nat, j: nat)
    requires Replay(trace).Ledger? && i < j < |trace| && trace[i] == Closed(s)
    ensures trace[j] != Closed(s)
  {
    PrefixInOrder(trace, i + 1);
    PrefixInOrder(trace, j + 1);
    ReplayPrefix(trace, i);
    ReplayPrefix(trace, j);
    AllOpenKnown(trace[..i]);
    StaysClosed(trace, s, i + 1, j);
  }

  /** An account in order closes a stream on the device it was opened on: that one is not unmade in between. */
  lemma ClosedBeforeUnmade(trace: seq<Event>, s: nat, i: nat, k: nat, j: nat)
    requires Replay(trace).Ledger? && i < k < j < |trace| && trace[i] == Opened(s) && trace[j] == Closed(s)
    ensures trace[k] != Unmade
  {
    hide Replay;
    PrefixInOrder(trace, j + 1);
    PrefixInOrder(trace, i + 1);
    ReplayPrefix(trace, i);
    ReplayPrefix(trace, j);
    if trace[k] == Unmade {
      var d := Replay(trace[..i + 1]).devices;
      OpenOn(trace, s, d, i + 1, k);
      PrefixInOrder(trace, k + 1);
      ReplayPrefix(trace, k);
      DeviceGone(trace, s, d, k + 1, j);
    }
  }

  lemma ReplayPrefix(trace: seq<Event>, n: nat)
    requires n < |trace|
    ensures Replay(trace[..n + 1]) == Apply(Replay(trace[..n]), trace[n])
  {
    assert trace[..n + 1] == trace[..n] + [trace[n]];
    ReplayMore(trace[..n], trace[n]);
  }

  lemma {:induction false} PrefixInOrder(trace: seq<Event>, n: nat)
    requires Replay(trace).Ledger? && n <= |trace|
    ensures Replay(trace[..n]).Ledger?
    decreases |trace|
  {
    if n == |trace| {
      assert trace[..n] == trace;
    } else {
      PrefixInOrder(trace[..|trace| - 1], n);
      assert trace[..|trace| - 1][..n] == trace[..n];
    }
  }

  lemma {:induction false} AllOpenKnown(trace: seq<Event>)
    requires Replay(trace).Ledger?
    ensures Replay(trace).open.Keys <= Replay(trace).ever
  {
    if trace != [] {
      AllOpenKnown(trace[..|trace| - 1]);
    }
  }

  lemma {:induction false} StaysClosed(trace: seq<Event>, s: nat, i: nat, n: nat)
    requires Replay(trace).Ledger? && i <= n <= |trace|
    requires var l := Replay(trace[..i]); l.Ledger? && s in l.ever && s !in l.open
    ensures var l := Replay(trace[..n]); l.Ledger? && s in l.ever && s !in l.open
    decreases n
  {
    hide Replay;
    if i < n {
      StaysClosed(trace, s, i, n - 1);
      PrefixInOrder(trace, n);
      ReplayPrefix(trace, n - 1);
    }
  }

  /** Until it is closed, a stream is open on the device d, or on none that exists. */
  lemma {:induction false} OpenOn(trace: seq<Event>, s: nat, d: nat, i: nat, n: nat)
    requires Replay(trace).Ledger? && i <= n <= |trace|
    requires var l := Replay(trace[..i]); l.Ledger? && s in l.ever && (s in l.open ==> l.open[s] == d) && l.devices >= d
    ensures var l := Replay(trace[..n]); l.Ledger? && s in l.ever && (s in l.open ==> l.open[s] == d) && l.devices >= d
    decreases n
  {
    hide Replay;
    if i < n {
      OpenOn(trace, s, d, i, n - 1);
      PrefixInOrder(trace, n);
      ReplayPrefix(trace, n - 1);
    }
  }

  /** Stream s was opened on device d, and that does not exist any more. */
  predicate Gone(l: Ledger, s: nat, d: nat) {
    && l.Ledger? && s in l.ever && (s in l.open ==> l.open[s] == d)
    && (if l.live then l.devices > d else l.devices >= d)
  }

  /** Once its device is gone, a stream is never again open on a device that exists. */
  lemma {:induction false} DeviceGone(trace: seq<Event>, s: nat, d: nat, i: nat, n: nat)
    requires Replay(trace).Ledger? && i <= n <= |trace|
    requires Gone(Replay(trace[..i]), s, d)
    ensures Gone(Replay(trace[..n]), s, d)
    decreases n
  {
    hide Replay;
    if i < n {
      DeviceGone(trace, s, d, i, n - 1);
      PrefixInOrder(trace, n);
      ReplayPrefix(trace, n - 1);
    }
  }

  // ---------- the handler ----------

  /** How a setup ends: the device refuses, no socket can be bound or connected, no client connects, or it works. */
  datatype Setup = Refused | SocketFails | AcceptFails | Works

  /** A request. UseDevice stands for the many that only pass something through to the device, UseStream for activating
      and deactivating a stream; the rest does not concern devices. */
  datatype Call =
    | Make(works: bool) | Unmake | SetupStream(setup: Setup) | SetupBypass(works: bool) | CloseStream(id: int)
    | UseDevice(works: bool) | UseStream(id: int, works: bool) | Other(works: bool) | Hangup

  /** A crash is the null pointer that a call without a device runs into. */
  datatype Reply = Done | Stream(id: int) | Exception | Crash

  /** The device driver: it hands out a new stream for every setup that it accepts. */
  class Driver {
    ghost var trace: seq<Event>
    var streams: nat

    constructor ()
      ensures trace == [] && Valid()
    {
      trace, streams := [], 0;
    }

    ghost predicate Valid()
      reads this
    {
      Replay(trace).Ledger? && forall s :: s in Replay(trace).ever ==> s < streams
    }

    method Make()
      requires Valid() && !Replay(trace).live
      modifies this
      ensures Valid() && Replay(trace) == Apply(old(Replay(trace)), Made)
    {
      ReplayMore(trace, Made);
      trace := trace + [Made];
    }

    method Unmake()
      requires Valid() && Replay(trace).live
      modifies this
      ensures Valid() && Replay(trace) == Apply(old(Replay(trace)), Unmade)
    {
      ReplayMore(trace, Unmade);
      trace := trace + [Unmade];
    }

    method SetupStream() returns (stream: nat)
      requires Valid() && Replay(trace).live
      modifies this
      ensures Valid() && stream !in old(Replay(trace)).ever
      ensures Replay(trace) == Apply(old(Replay(trace)), Opened(stream))
    {
      stream := streams;
      ReplayMore(trace, Opened(stream));
      trace := trace + [Opened(stream)];
      streams := streams + 1;
    }

    method CloseStream(stream: nat)
      requires Valid() && var l := Replay(trace); l.live && stream in l.open && l.open[stream] == l.devices
      modifies this
      ensures Valid() && Replay(trace) == Apply(old(Replay(trace)), Closed(stream))
    {
      ReplayMore(trace, Closed(stream));
      trace := trace + [Closed(stream)];
    }
  }

  function StreamsOf(table: map<int, nat>): set<nat> {
    set id | id in table :: table[id]
  }

  /** What the table, the device and the streams given up have to do with the account of the device. */
  ghost predicate Agrees(l: Ledger, dev: bool, table: map<int, nat>, next: int, leaked: set<nat>) {
    && l.Ledger? && l.live == dev
    && l.open.Keys == StreamsOf(table) + leaked && l.open.Keys <= l.ever
    && (forall id :: id in table ==> dev && 0 <= id < next && table[id] !in leaked && l.open[table[id]] == l.devices)
    && (forall i, j :: i in table && j in table && i != j ==> table[i] != table[j])
  }

  lemma AgreesLive(l: Ledger, dev: bool, table: map<int, nat>, next: int, leaked: set<nat>)
    requires Agrees(l, dev, table, next, leaked)
    ensures l.Ledger? && l.live == dev
  {
  }

  lemma AgreesOpened(l: Ledger, table: map<int, nat>, next: int, leaked: set<nat>, s: nat)
    requires Agrees(l, true, table, next, leaked) && s !in l.ever && next >= 0
    ensures Agrees(Apply(l, Opened(s)), true, table[next := s], next + 1, leaked)
    ensures Agrees(Apply(l, Opened(s)), true, table, next + 1, leaked + {s})
    ensures s !in leaked && next !in table
  {
    var t := table[next := s];
    assert StreamsOf(t) == StreamsOf(table) + {s} by {
      assert t[next] == s;
      forall x | x in StreamsOf(table) ensures x in StreamsOf(t) {
        var id :| id in table && table[id] == x;
        assert t[id] == x;
      }
    }
  }

  lemma AgreesClosed(l: Ledger, table: map<int, nat>, next: int, leaked: set<nat>, id: int)
    requires Agrees(l, true, table, next, leaked) && id in table
    ensures table[id] in l.open && l.open[table[id]] == l.devices
    ensures Agrees(Apply(l, Closed(table[id])), true, table - {id}, next, leaked)
  {
    var s, t := table[id], table - {id};
    assert s in StreamsOf(table);
    assert StreamsOf(t) == StreamsOf(table) - {s} by {
      forall x | x in StreamsOf(table) && x != s ensures x in StreamsOf(t) {
        var i :| i in table && table[i] == x;
        assert i in t && t[i] == x;
      }
    }
  }

  lemma InTable(l: Ledger, dev: bool, table: map<int, nat>, next: int, leaked: set<nat>, id: int)
    requires Agrees(l, dev, table, next, leaked) && id in table
    ensures dev
  {
  }

  /** m is l after some streams were closed. */
  ghost predicate Fewer(l: Ledger, m: Ledger) {
    && l.Ledger? && m.Ledger? && m == l.(open := m.open)
    && forall s :: s in m.open ==> s in l.open && l.open[s] == m.open[s]
  }

  lemma FewerStill(l: Ledger, m: Ledger, s: nat)
    requires Fewer(l, m) && m.live && s in m.open && m.open[s] == m.devices
    ensures Fewer(l, Apply(m, Closed(s)))
  {
  }

  lemma AllClosed(l: Ledger, m: Ledger, dev: bool, table: map<int, nat>, next: int, leaked: set<nat>)
    requires Agrees(l, dev, table, next, leaked) && Agrees(m, dev, map[], next, leaked) && Fewer(l, m)
    ensures m == l.(open := l.open - StreamsOf(table))
  {
    assert StreamsOf(map[]) == {};
    assert StreamsOf(table) !! leaked;
    assert m.open == l.open - StreamsOf(table);
  }

  lemma IdsBelow(l: Ledger, dev: bool, table: map<int, nat>, next: int, leaked: set<nat>)
    requires Agrees(l, dev, table, next, leaked)
    ensures l.Ledger? && forall id :: id in table ==> dev && 0 <= id < next
  {
  }

  lemma NothingLeft(l: Ledger, next: int, leaked: set<nat>)
    requires Agrees(l, false, map[], next, leaked)
    ensures l.Ledger? && !l.live && l.open.Keys == leaked
  {
    assert StreamsOf(map[]) == {};
  }

  lemma NoCalls(calls: seq<Call>, first: int)
    ensures calls[0..] == calls && calls[..0] == []
    ensures IdsOf([], first) == [] && Used([]) == 0
  {
  }

  lemma AllCalls(calls: seq<Call>, dev: bool)
    ensures calls[|calls|..] == [] && calls[..|calls|] == calls
    ensures Served([]) == 0 && Answered([], dev) == 0 && WellCalled([], dev)
  {
  }

  /** One call more. */
  lemma CallStep(calls: seq<Call>, k: nat, dev: bool, first: int)
    requires k < |calls|
    ensures IdsOf(calls[..k + 1], first)
         == IdsOf(calls[..k], first) + if ReturnsId(calls[k]) then [first + Used(calls[..k])] else []
    ensures Used(calls[..k + 1]) == Used(calls[..k]) + if Opens(calls[k]) then 1 else 0
    ensures Served(calls[k..]) == if calls[k] == Hangup then 1 else 1 + Served(calls[k + 1..])
    ensures Answered(calls[k..], dev)
         == if NeedsDevice(calls[k]) && !dev then 0
            else if calls[k] == Hangup then 1 else 1 + Answered(calls[k + 1..], After(calls[k], dev))
    ensures WellCalled(calls[k..], dev)
            <==> (NeedsDevice(calls[k]) ==> dev)
                 && (calls[k] == Hangup || WellCalled(calls[k + 1..], After(calls[k], dev)))
  {
    assert calls[k..][1..] == calls[k + 1..] && calls[..k + 1][..k] == calls[..k];
  }

  /** A returned id is the next one. */
  lemma RepliesWithId(call: Call, dev: bool, table: map<int, nat>, next: int, reply: Reply)
    requires Answers(call, dev, table, next, reply)
    ensures reply.Stream? <==> ReturnsId(call)
    ensures reply.Stream? ==> reply.id == next && Opens(call)
  {
  }

  class ClientHandler {
    const driver: Driver
    var dev: bool
    var nextStreamId: int
    var streamData: map<int, nat>

    // streams of setups that failed behind the device's back
    ghost var leaked: set<nat>

    ghost predicate Valid()
      reads this, driver
    {
      driver.Valid() && nextStreamId >= 0 && Agrees(Replay(driver.trace), dev, streamData, nextStreamId, leaked)
    }

    constructor (driver: Driver)
      requires driver.Valid() && driver.trace == []
      ensures this.driver == driver && Valid() && !dev && streamData == map[] && nextStreamId == 0 && leaked == {}
    {
      this.driver := driver;
      dev, nextStreamId, streamData, leaked := false, 0, map[], {};
    }

    /** Closes every stream of the table on the device, in the order of their ids. */
    method CloseAll()
      requires Valid()
      modifies driver, `streamData
      ensures Valid() && streamData == map[]
      ensures Replay(driver.trace)
           == old(Replay(driver.trace)).(open := old(Replay(driver.trace)).open - StreamsOf(old(streamData)))
    {
      hide Agrees, Replay, Apply, StreamsOf;
      ghost var l, table := Replay(driver.trace), streamData;
      IdsBelow(l, dev, table, nextStreamId, leaked);
      for id := 0 to nextStreamId
        invariant Valid() && nextStreamId == old(nextStreamId)
        invariant Fewer(l, Replay(driver.trace))
        invariant forall i :: i in streamData ==> dev && id <= i < nextStreamId
      {
        if id in streamData {
          AgreesClosed(Replay(driver.trace), streamData, nextStreamId, leaked, id);
          AgreesLive(Replay(driver.trace), dev, streamData, nextStreamId, leaked);
          FewerStill(l, Replay(driver.trace), streamData[id]);
          driver.CloseStream(streamData[id]);
          streamData := streamData - {id};
        }
      }
      assert forall i :: i !in streamData;
      assert streamData == map[];
      AllClosed(l, Replay(driver.trace), dev, table, nextStreamId, leaked);
    }

    /** UNMAKE, and the destructor. */
    method Release()
      requires Valid()
      modifies this, driver
      ensures Valid() && !dev && streamData == map[] && nextStreamId == old(nextStreamId) && leaked == old(leaked)
      ensures var l := old(Replay(driver.trace));
              l.Ledger? && Replay(driver.trace) == l.(live := false, open := l.open - StreamsOf(old(streamData)))
    {
      AgreesLive(Replay(driver.trace), dev, streamData, nextStreamId, leaked);
      CloseAll();
      if dev {
        driver.Unmake();
      }
      dev := false;
    }

    /** SETUP_STREAM. */
    method OpenStream(setup: Setup) returns (reply: Reply, ghost stream: nat)
      requires Valid()
      modifies this, driver
      ensures Valid() && dev == old(dev)
      ensures reply == Crash <==> !old(dev)
      ensures !old(dev) || setup == Refused ==>
                && streamData == old(streamData) && nextStreamId == old(nextStreamId) && leaked == old(leaked)
                && Replay(driver.trace) == old(Replay(driver.trace))
      ensures old(dev) && setup != Refused ==>
                && nextStreamId == old(nextStreamId) + 1 && stream !in old(Replay(driver.trace)).ever
                && Replay(driver.trace) == Apply(old(Replay(driver.trace)), Opened(stream))
      ensures old(dev) && setup == Refused ==> reply == Exception
      ensures old(dev) && setup == SocketFails ==>
                reply == Exception && streamData == old(streamData) && leaked == old(leaked) + {stream} > old(leaked)
      ensures old(dev) && (setup == AcceptFails || setup == Works) ==>
                && leaked == old(leaked) && old(nextStreamId) !in old(streamData)
                && streamData == old(streamData)[old(nextStreamId) := stream]
                && reply == if setup == Works then Stream(old(nextStreamId)) else Exception
    {
      hide Agrees, Apply, Replay, StreamsOf;
      stream := 0;
      if !dev {
        return Crash, stream;
      }
      AgreesLive(Replay(driver.trace), dev, streamData, nextStreamId, leaked);
      if setup == Refused {
        return Exception, stream;
      }
      var s := driver.SetupStream();
      stream := s;
      AgreesOpened(old(Replay(driver.trace)), streamData, nextStreamId, leaked, stream);
      if setup == SocketFails {
        // the entry goes in and out again, and nobody closes the stream
        ghost var before := streamData;
        streamData := streamData[nextStreamId := s];
        streamData := streamData - {nextStreamId};
        assert streamData == before;
        leaked := leaked + {stream};
        nextStreamId := nextStreamId + 1;
        return Exception, stream;
      }
      streamData := streamData[nextStreamId := s];
      nextStreamId := nextStreamId + 1;
      reply := if setup == Works then Stream(nextStreamId - 1) else Exception;
    }

    /** CLOSE_STREAM. */
    method Close(id: int) returns (reply: Reply)
      requires Valid()
      modifies driver, `streamData
      ensures Valid() && streamData == old(streamData) - {id}
      ensures if id in old(streamData) then
                reply == Done
                && Replay(driver.trace) == Apply(old(Replay(driver.trace)), Closed(old(streamData)[id]))
              else reply == Exception && Replay(driver.trace) == old(Replay(driver.trace))
    {
      if id !in streamData {
        return Exception;
      }
      AgreesClosed(Replay(driver.trace), streamData, nextStreamId, leaked, id);
      driver.CloseStream(streamData[id]);
      streamData := streamData - {id};
      reply := Done;
    }

    /** A call that is passed through to the device. */
    method Use(works: bool) returns (reply: Reply)
      ensures reply == if !dev then Crash else if works then Done else Exception
    {
      if !dev {
        return Crash;
      }
      reply := if works then Done else Exception;
    }

    /** handleOnce. */
    method HandleOnce(call: Call) returns (again: bool, reply: Reply)
      requires Valid()
      modifies this, driver
      ensures Valid() && again == (call != Hangup && reply != Crash)
      ensures reply == Crash <==> NeedsDevice(call) && !old(dev)
      ensures dev == After(call, old(dev))
      ensures nextStreamId == old(nextStreamId) + if Opens(call) && reply != Crash then 1 else 0
      ensures reply != Crash ==> Answers(call, old(dev), old(streamData), old(nextStreamId), reply)
      ensures reply != Crash ==>
                TableAfter(call, old(streamData), old(nextStreamId), streamData)
                && AccountAfter(call, old(dev), old(streamData), old(nextStreamId), streamData,
                                old(Replay(driver.trace)), Replay(driver.trace))
      ensures reply == Crash ==>
                streamData == old(streamData) && Replay(driver.trace) == old(Replay(driver.trace))
      ensures if call == SetupStream(SocketFails) && old(dev) then old(leaked) < leaked else leaked == old(leaked)
    {
      again, reply := true, Done;
      match call {
        case Make(works) =>
          if !dev {
            if works {
              driver.Make();
              dev := true;
            } else {
              reply := Exception;
            }
          }
        case Unmake => Release();
        case SetupStream(setup) =>
          ghost var stream;
          reply, stream := OpenStream(setup);
        case SetupBypass(works) =>
          ghost var stream;
          reply, stream := OpenStream(if works then Works else Refused);
        case CloseStream(id) => reply := Close(id);
        case UseDevice(works) => reply := Use(works);
        case UseStream(id, works) =>
          if id in streamData {
            InTable(Replay(driver.trace), dev, streamData, nextStreamId, leaked, id);
            reply := Use(works);
          } else {
            reply := Exception;
          }
        case Other(works) => reply := if works then Done else Exception;
        case Hangup => again := false;
      }
      if reply == Crash {
        again := false;
      }
    }

    /** A connection: the calls up to a hangup, and the destructor. Whatever the calls were, the device's account is in
        order and no stream id was given out twice. The process crashes exactly when a call uses a device when there is
        none; otherwise the streams that stay open are exactly the leaked ones, and there are some exactly when
        the sockets of a setup failed. */
    method Serve(calls: seq<Call>) returns (ids: seq<int>, crashed: bool)
      requires Valid() && leaked == {}
      modifies this, driver
      ensures Replay(driver.trace).Ledger?
      ensures ids == IdsOf(calls[..Answered(calls, old(dev))], old(nextStreamId))
      ensures forall j, k :: 0 <= j < k < |ids| ==> ids[j] < ids[k]
      ensures crashed <==> !WellCalled(calls, old(dev))
      ensures !crashed ==> !Replay(driver.trace).live && Replay(driver.trace).open.Keys == leaked
      ensures !crashed ==>
                (leaked == {} <==> forall k :: 0 <= k < Served(calls) ==> calls[k] != SetupStream(SocketFails))
    {
      hide Agrees, Apply, Replay, StreamsOf, Answers, TableAfter, AccountAfter, IdsOf, Used, Answered, Served,
           WellCalled;
      ids, crashed := [], false;
      var again, k := true, 0;
      NoCalls(calls, old(nextStreamId));
      while again && k < |calls|
        invariant Valid() && k <= |calls| && k <= Served(calls) && !crashed
        invariant WellCalled(calls, old(dev)) <==> !again || WellCalled(calls[k..], dev)
        invariant if again then Served(calls) == k + Served(calls[k..]) else k == Served(calls)
        invariant Answered(calls, old(dev)) == k + if again then Answered(calls[k..], dev) else 0
        invariant ids == IdsOf(calls[..k], old(nextStreamId)) && nextStreamId == old(nextStreamId) + Used(calls[..k])
        invariant leaked == {} <==> forall j :: 0 <= j < k ==> calls[j] != SetupStream(SocketFails)
        invariant forall i, j :: 0 <= i < j < |ids| ==> ids[i] < ids[j]
        invariant forall i :: 0 <= i < |ids| ==> ids[i] < nextStreamId
      {
        CallStep(calls, k, dev, old(nextStreamId));
        ghost var had, table, next := dev, streamData, nextStreamId;
        var reply;
        again, reply := HandleOnce(calls[k]);
        if reply == Crash {
          return ids, true;
        }
        RepliesWithId(calls[k], had, table, next, reply);
        if reply.Stream? {
          ids := ids + [reply.id];
        }
        k := k + 1;
      }
      AllCalls(calls, dev);
      Release();
      NothingLeft(Replay(driver.trace), nextStreamId, leaked);
    }
  }

  /** A device call on a connection that never made a device. */
  method CrashingCall() returns (crashed: bool)
    ensures crashed
  {
    var driver := new Driver();
    var handler := new ClientHandler(driver);
    var ids;
    ids, crashed := handler.Serve([UseDevice(true)]);
  }

  /** A stream that is never closed: its sockets could not be bound. */
  method LeakedStream() returns (handler: ClientHandler)
    ensures var l := Replay(handler.driver.trace); l.Ledger? && !l.live && l.open != map[]
  {
    var driver := new Driver();
    handler := new ClientHandler(driver);
    var calls := [Make(true), SetupStream(SocketFails)];
    assert calls[1..] == [SetupStream(SocketFails)] && calls[1..][1..] == [];
    assert WellCalled(calls, false) && Served(calls) == 2;
    var ids, crashed := handler.Serve(calls);
    assert calls[1] == SetupStream(SocketFails);
    assert Replay(driver.trace).open.Keys != {};
  }

  /** The call gets a stream from the device, with the next id. */
  predicate Opens(call: Call) {
    (call.SetupStream? && call.setup != Refused) || (call.SetupBypass? && call.works)
  }

  /** The stream stays in the table. */
  predicate Keeps(call: Call) {
    Opens(call) && call != SetupStream(SocketFails)
  }

  /** The call returns the stream's id. */
  predicate ReturnsId(call: Call) {
    call == SetupStream(Works) || call == SetupBypass(true)
  }

  /** The reply to a call that does not crash. */
  ghost predicate Answers(call: Call, dev: bool, table: map<int, nat>, next: int, reply: Reply) {
    match call
    case Make(works) => reply == if dev || works then Done else Exception
    case Unmake => reply == Done
    case SetupStream(setup) => reply == if setup == Works then Stream(next) else Exception
    case SetupBypass(works) => reply == if works then Stream(next) else Exception
    case CloseStream(id) => reply == if id in table then Done else Exception
    case UseDevice(works) => reply == if works then Done else Exception
    case UseStream(id, works) => reply == if id in table && works then Done else Exception
    case Other(works) => reply == if works then Done else Exception
    case Hangup => reply == Done
  }

  /** The table after it. */
  ghost predicate TableAfter(call: Call, table: map<int, nat>, next: int, table': map<int, nat>) {
    if call == Unmake then table' == map[]
    else if call.CloseStream? then table' == table - {call.id}
    else if Keeps(call) then next !in table && next in table' && table' == table[next := table'[next]]
    else table' == table
  }

  /** What the device was told in it. Unmaking closes all streams of the table first. */
  ghost predicate AccountAfter(call: Call, dev: bool, table: map<int, nat>, next: int, table': map<int, nat>,
                               l: Ledger, l': Ledger)
  {
    if call == Make(true) && !dev then l' == Apply(l, Made)
    else if call == Unmake then l.Ledger? && l' == l.(live := false, open := l.open - StreamsOf(table))
    else if call.CloseStream? && call.id in table then l' == Apply(l, Closed(table[call.id]))
    else if call == SetupStream(SocketFails) then
      exists s :: l.Ledger? && s !in l.ever && l' == Apply(l, Opened(s))
    else if Keeps(call) then
      l.Ledger? && next in table' && table'[next] !in l.ever && l' == Apply(l, Opened(table'[next]))
    else l' == l
  }

  /** How many ids a sequence of calls uses up, and those it returns when the first one is first. */
  function Used(calls: seq<Call>): nat {
    if calls == [] then 0 else Used(calls[..|calls| - 1]) + if Opens(calls[|calls| - 1]) then 1 else 0
  }

  function IdsOf(calls: seq<Call>, first: int): seq<int> {
    if calls == [] then []
    else
      var front := calls[..|calls| - 1];
      IdsOf(front, first) + if ReturnsId(calls[|calls| - 1]) then [first + Used(front)] else []
  }

  /** How many calls are answered: those up to the first hangup, and before a crash. */
  function Answered(calls: seq<Call>, dev: bool): (n: nat)
    ensures n <= |calls|
  {
    if calls == [] || (NeedsDevice(calls[0]) && !dev) then 0
    else if calls[0] == Hangup then 1
    else 1 + Answered(calls[1..], After(calls[0], dev))
  }

  predicate NeedsDevice(call: Call) {
    call.SetupStream? || call.SetupBypass? || call.UseDevice?
  }

  /** Whether there is a device after the call. */
  function After(call: Call, dev: bool): bool {
    match call
    case Make(works) => dev || works
    case Unmake => false
    case _ => dev
  }

  /** How many calls are handled: those up to the first hangup. */
  function Served(calls: seq<Call>): (n: nat)
    ensures n <= |calls|
  {
    if calls == [] then 0 else if calls[0] == Hangup then 1 else 1 + Served(calls[1..])
  }

  /** Calls that need a device come only while there is one. */
  predicate WellCalled(calls: seq<Call>, dev: bool) {
    calls != [] ==>
      && (NeedsDevice(calls[0]) ==> dev)
      && (calls[0] == Hangup || WellCalled(calls[1..], After(calls[0], dev)))
  }
}
