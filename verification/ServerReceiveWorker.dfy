/** The server's worker that takes in datagrams and writes them to the device (recvEndpointWork). */
module ServerReceiveWorker {
  import opened Arithmetic
  import opened Bytes
  import opened Sequences
  import opened Sockets
  import opened FlowControl
  import opened HandleRing
  import opened BufferLayout
  import opened StreamFlags
  import opened StreamEndpoint
  import opened DeviceStream
  import opened Datagrams

  /** One writeStream call: what is offered for each channel, the flags and time, and the device's answer. */
  datatype Write = Write(offered: seq<seq<byte>>, left: nat, flags: Flags, time: int, ret: int) {
    /** The device took a part of the offer, possibly an empty one. */
    predicate Accepted() {
      0 <= ret <= left
    }
  }

  datatype Ending = AllWritten | Stopped | Failed(code: int) | Overrun

  /** The calls made for one datagram, how they ended and what was not accepted. */
  datatype Writes = Writes(calls: seq<Write>, end: Ending, rest: seq<seq<byte>>, left: nat,
                           script: seq<int>, stop: seq<bool>)

  /** The answer to the next call; a device whose script is used up times out. */
  function NextRet(script: seq<int>): int {
    if script == [] then TIMEOUT else script[0]
  }

  ghost predicate Sized(es: nat, data: seq<seq<byte>>, n: nat) {
    forall i :: 0 <= i < |data| ==> |data[i]| == n * es
  }

  lemma BackSized(es: nat, data: seq<seq<byte>>, n: nat, k: nat)
    requires Sized(es, data, n) && k <= n
    ensures forall i :: 0 <= i < |data| ==> k * es <= |data[i]|
    ensures Sized(es, Back(data, k * es), n - k) && Sized(es, Front(data, k * es), k)
    ensures Appended(Front(data, k * es), Back(data, k * es)) == data
  {
    FragmentBytes(es, n, k);
    FrontAndBack(data, n * es, k * es);
  }

  lemma FrontAndBack(data: seq<seq<byte>>, total: nat, x: nat)
    requires x <= total && forall i :: 0 <= i < |data| ==> |data[i]| == total
    ensures Appended(Front(data, x), Back(data, x)) == data
    ensures forall i :: 0 <= i < |data| ==> |Front(data, x)[i]| == x && |Back(data, x)[i]| == total - x
  {
    assert forall i :: 0 <= i < |data| ==> data[i][..x] + data[i][x..] == data[i];
  }

  /** Writes the samples of data until the device has them all; done is tested before each call. */
  function WriteLoop(es: nat, script: seq<int>, stop: seq<bool>, data: seq<seq<byte>>, left: nat,
                     flags: Flags, time: int): (w: Writes)
    requires Sized(es, data, left)
    ensures Sized(es, w.rest, w.left) && |w.stop| <= |stop|
    decreases |stop|
  {
    if stop == [] || stop[0] then Writes([], Stopped, data, left, script, Rest(stop))
    else
      var ret := NextRet(script);
      var call := Write(data, left, flags, time, ret);
      if ret == TIMEOUT then
        var w := WriteLoop(es, Rest(script), stop[1..], data, left, flags, time);
        w.(calls := [call] + w.calls)
      else if ret < 0 then Writes([call], Failed(ret), data, left, Rest(script), stop[1..])
      else if left < ret then Writes([call], Overrun, data, left, Rest(script), stop[1..])
      else
        BackSized(es, data, left, ret);
        var rest := Back(data, ret * es);
        if ret == left then Writes([call], AllWritten, rest, 0, Rest(script), stop[1..])
        else
          var w := WriteLoop(es, Rest(script), stop[1..], rest, left - ret, flags.(hasTime := false), time);
          w.(calls := [call] + w.calls)
  }

  /** w after the given calls. */
  function After(calls: seq<Write>, w: Writes): Writes {
    w.(calls := calls + w.calls)
  }

  /** One test of done and, unless it stops the loop, one call. */
  lemma LoopStep(es: nat, script: seq<int>, stop: seq<bool>, data: seq<seq<byte>>, left: nat, flags: Flags, time: int)
    requires Sized(es, data, left)
    ensures var w := WriteLoop(es, script, stop, data, left, flags, time);
            var ret := NextRet(script);
            var call := Write(data, left, flags, time, ret);
            if stop == [] || stop[0] then w == Writes([], Stopped, data, left, script, Rest(stop))
            else if ret == TIMEOUT then
              w == After([call], WriteLoop(es, Rest(script), Rest(stop), data, left, flags, time))
            else if ret < 0 then w == Writes([call], Failed(ret), data, left, Rest(script), Rest(stop))
            else if left < ret then w == Writes([call], Overrun, data, left, Rest(script), Rest(stop))
            else
              && (forall i :: 0 <= i < |data| ==> ret * es <= |data[i]|) && Sized(es, Back(data, ret * es), left - ret)
              && if ret == left then w == Writes([call], AllWritten, Back(data, ret * es), 0, Rest(script), Rest(stop))
                 else
                   var rest, cleared := Back(data, ret * es), flags.(hasTime := false);
                   w == After([call], WriteLoop(es, Rest(script), Rest(stop), rest, left - ret, cleared, time))
  {
    var ret := NextRet(script);
    if 0 <= ret <= left {
      BackSized(es, data, left, ret);
    }
  }

  /** Every call offers what its channels hold. */
  ghost predicate OffersSized(es: nat, chans: nat, calls: seq<Write>) {
    forall k :: 0 <= k < |calls| ==> |calls[k].offered| == chans && Sized(es, calls[k].offered, calls[k].left)
  }

  /** The piece of each channel that a call made the device take. */
  function Piece(es: nat, chans: nat, call: Write): (r: seq<seq<byte>>)
    requires |call.offered| == chans && Sized(es, call.offered, call.left)
    ensures |r| == chans
  {
    if call.Accepted() then
      BackSized(es, call.offered, call.left, call.ret);
      Front(call.offered, call.ret * es)
    else NoData(chans)
  }

  /** What the device took in all. */
  function Pieces(es: nat, chans: nat, calls: seq<Write>): (r: seq<seq<byte>>)
    requires OffersSized(es, chans, calls)
    ensures |r| == chans
  {
    if calls == [] then NoData(chans)
    else Appended(Piece(es, chans, calls[0]), Pieces(es, chans, calls[1..]))
  }

  /** The pieces the device takes of one datagram, followed by what it did not take, are exactly the datagram's samples,
      channel by channel; all of it is taken when the loop ends by itself, and only then unless the datagram is
      empty. */
  ghost predicate Delivers(es: nat, w: Writes, data: seq<seq<byte>>, left: nat) {
    && OffersSized(es, |data|, w.calls) && |w.rest| == |data|
    && Appended(Pieces(es, |data|, w.calls), w.rest) == data
    && w.left <= left && (w.end == AllWritten ==> w.left == 0) && (w.left == 0 && left > 0 ==> w.end == AllWritten)
  }

  lemma {:induction false} WritesDeliver(es: nat, script: seq<int>, stop: seq<bool>, data: seq<seq<byte>>, left: nat,
                                         flags: Flags, time: int)
    requires Sized(es, data, left)
    ensures Delivers(es, WriteLoop(es, script, stop, data, left, flags, time), data, left)
    decreases |stop|
  {
    hide WriteLoop, Delivers;
    var ret := NextRet(script);
    var call := Write(data, left, flags, time, ret);
    LoopStep(es, script, stop, data, left, flags, time);
    LastDelivers(es, call, WriteLoop(es, script, stop, data, left, flags, time));
    if !(stop == [] || stop[0]) {
      if ret == TIMEOUT {
        WritesDeliver(es, Rest(script), Rest(stop), data, left, flags, time);
        RetryDelivers(es, call, WriteLoop(es, Rest(script), Rest(stop), data, left, flags, time));
      } else if 0 <= ret < left {
        var rest, cleared := Back(data, ret * es), flags.(hasTime := false);
        WritesDeliver(es, Rest(script), Rest(stop), rest, left - ret, cleared, time);
        PartDelivers(es, call, WriteLoop(es, Rest(script), Rest(stop), rest, left - ret, cleared, time));
      }
    }
  }

  /** A loop that stops at once, or after one call. */
  lemma LastDelivers(es: nat, call: Write, w: Writes)
    requires Sized(es, call.offered, call.left)
    ensures w.calls == [] && w.rest == call.offered && w.left == call.left && w.end == Stopped ==>
              Delivers(es, w, call.offered, call.left)
    ensures w.calls == [call] && !call.Accepted() && w.rest == call.offered && w.left == call.left ==>
              (w.end != AllWritten ==> Delivers(es, w, call.offered, call.left))
    ensures call.ret == call.left ==> forall i :: 0 <= i < |call.offered| ==> call.ret * es <= |call.offered[i]|
    ensures call.ret == call.left && w.rest == Back(call.offered, call.ret * es) ==>
              (w.calls == [call] && w.left == 0 && w.end == AllWritten ==> Delivers(es, w, call.offered, call.left))
  {
    NoPieces(es, |call.offered|);
    PrependNothing(call.offered);
    LastPiece(es, |call.offered|, call);
    if call.ret == call.left {
      TakenPart(es, call);
    }
  }

  lemma RetryDelivers(es: nat, call: Write, v: Writes)
    requires Sized(es, call.offered, call.left) && !call.Accepted() && Delivers(es, v, call.offered, call.left)
    ensures Delivers(es, After([call], v), call.offered, call.left)
  {
    PassedOver(es, |call.offered|, call, v.calls);
  }

  lemma PartDelivers(es: nat, call: Write, v: Writes)
    requires Sized(es, call.offered, call.left) && 0 <= call.ret < call.left
    requires forall i :: 0 <= i < |call.offered| ==> call.ret * es <= |call.offered[i]|
    requires Delivers(es, v, Back(call.offered, call.ret * es), call.left - call.ret)
    ensures Delivers(es, After([call], v), call.offered, call.left)
  {
    hide Piece, Pieces, OffersSized, Back, Sized;
    var n := |call.offered|;
    TakenPart(es, call);
    FirstPiece(es, n, call, v.calls);
    AppendedTwice(Piece(es, n, call), Pieces(es, n, v.calls), v.rest);
  }

  lemma NoPieces(es: nat, n: nat)
    ensures OffersSized(es, n, []) && Pieces(es, n, []) == NoData(n)
  {
  }

  lemma PassedOver(es: nat, n: nat, call: Write, calls: seq<Write>)
    requires |call.offered| == n && Sized(es, call.offered, call.left) && OffersSized(es, n, calls) && !call.Accepted()
    ensures OffersSized(es, n, [call] + calls) && Pieces(es, n, [call] + calls) == Pieces(es, n, calls)
  {
    FirstPiece(es, n, call, calls);
    PrependNothing(Pieces(es, n, calls));
  }

  lemma TakenPart(es: nat, call: Write)
    requires Sized(es, call.offered, call.left) && call.Accepted()
    ensures forall i :: 0 <= i < |call.offered| ==> call.ret * es <= |call.offered[i]|
    ensures Appended(Piece(es, |call.offered|, call), Back(call.offered, call.ret * es)) == call.offered
  {
    BackSized(es, call.offered, call.left, call.ret);
  }

  lemma FirstPiece(es: nat, n: nat, call: Write, calls: seq<Write>)
    requires |call.offered| == n && Sized(es, call.offered, call.left) && OffersSized(es, n, calls)
    ensures OffersSized(es, n, [call] + calls)
    ensures Pieces(es, n, [call] + calls) == Appended(Piece(es, n, call), Pieces(es, n, calls))
  {
    assert ([call] + calls)[1..] == calls;
  }

  lemma LastPiece(es: nat, n: nat, call: Write)
    requires |call.offered| == n && Sized(es, call.offered, call.left)
    ensures OffersSized(es, n, [call])
    ensures Pieces(es, n, [call]) == Piece(es, n, call)
    ensures !call.Accepted() ==> Piece(es, n, call) == NoData(n)
  {
    FirstPiece(es, n, call, []);
    assert [call] + [] == [call];
    AppendNothing(Piece(es, n, call));
  }

  predicate NoneAccepted(calls: seq<Write>) {
    forall k :: 0 <= k < |calls| ==> !calls[k].Accepted()
  }

  /** HAS_TIME is cleared exactly for the calls after the first accepted one, the other flags and the time
      go with every call, and nothing is written after a call that failed or overran. */
  ghost predicate TimedOnce(calls: seq<Write>, flags: Flags, time: int) {
    && (forall k :: 0 <= k < |calls| ==> calls[k].time == time)
    && (forall k :: 0 <= k < |calls| ==>
          calls[k].flags == if NoneAccepted(calls[..k]) then flags else flags.(hasTime := false))
    && (forall k :: 0 <= k < |calls| - 1 ==> calls[k].Accepted() || calls[k].ret == TIMEOUT)
  }

  lemma TimedBefore(call: Write, calls: seq<Write>, flags: Flags, time: int)
    requires call.flags == flags && call.time == time && (call.Accepted() || call.ret == TIMEOUT)
    requires TimedOnce(calls, if call.Accepted() then flags.(hasTime := false) else flags, time)
    ensures TimedOnce([call] + calls, flags, time)
  {
    var all := [call] + calls;
    forall k | 0 <= k < |all|
      ensures all[k].flags == if NoneAccepted(all[..k]) then flags else flags.(hasTime := false)
    {
      if k > 0 {
        assert all[..k] == [call] + calls[..k - 1];
        NoneAcceptedBefore(call, calls[..k - 1]);
      }
    }
  }

  lemma NoneAcceptedBefore(call: Write, calls: seq<Write>)
    ensures NoneAccepted([call] + calls) <==> !call.Accepted() && NoneAccepted(calls)
  {
    var all := [call] + calls;
    if NoneAccepted(all) {
      assert !all[0].Accepted();
      forall j | 0 <= j < |calls| ensures !calls[j].Accepted() {
        assert all[j + 1] == calls[j];
      }
    }
  }

  lemma {:induction false} TimeOnlyOnce(es: nat, script: seq<int>, stop: seq<bool>, data: seq<seq<byte>>, left: nat,
                                        flags: Flags, time: int)
    requires Sized(es, data, left)
    ensures TimedOnce(WriteLoop(es, script, stop, data, left, flags, time).calls, flags, time)
    decreases |stop|
  {
    if !(stop == [] || stop[0]) {
      var ret := NextRet(script);
      var call := Write(data, left, flags, time, ret);
      if ret == TIMEOUT {
        TimeOnlyOnce(es, Rest(script), stop[1..], data, left, flags, time);
        TimedBefore(call, WriteLoop(es, Rest(script), stop[1..], data, left, flags, time).calls, flags, time);
      } else if 0 <= ret < left {
        BackSized(es, data, left, ret);
        var rest, cleared := Back(data, ret * es), flags.(hasTime := false);
        TimeOnlyOnce(es, Rest(script), stop[1..], rest, left - ret, cleared, time);
        TimedBefore(call, WriteLoop(es, Rest(script), stop[1..], rest, left - ret, cleared, time).calls, flags, time);
      }
    }
  }

  // ---------- The worker ----------

  /** The device as the worker sees it: it answers every writeStream call as its script says. */
  class OutputDevice {
    var script: seq<int>
    ghost var calls: seq<Write>

    constructor (script: seq<int>)
      ensures this.script == script && calls == []
    {
      this.script, calls := script, [];
    }

    method WriteStream(es: nat, buf: array<byte>, offs: seq<nat>, left: nat, flags: Flags, time: int) returns (ret: int)
      requires forall i :: 0 <= i < |offs| ==> offs[i] + left * es <= buf.Length
      modifies this
      ensures ret == NextRet(old(script)) && script == Rest(old(script))
      ensures calls == old(calls) + [Write(Slices(buf[..], offs, left * es), left, flags, time, ret)]
    {
      ret := NextRet(script);
      script := Rest(script);
      calls := calls + [Write(Slices(buf[..], offs, left * es), left, flags, time, ret)];
    }
  }

  /** What writeStatus reports to the client. */
  datatype Status = Status(code: int, flags: Flags, time: int)

  /** The report a datagram's writes cause: one for a failed call, and otherwise none. */
  function Report(w: Writes): seq<Status> {
    if w.end.Failed? && w.calls != [] then
      var last := w.calls[|w.calls| - 1];
      [Status(last.ret, last.flags, last.time)]
    else []
  }

  /** How the loop goes: before each call a test of done finds false; the device's answers are those of its script; the
      loop goes on after a timeout and after a part. */
  ghost predicate Goes(script: seq<int>, stop: seq<bool>, w: Writes) {
    && |w.calls| <= |stop|
    && (forall j :: 0 <= j < |w.calls| ==>
          && !stop[j] && w.calls[j].ret == (if j < |script| then script[j] else TIMEOUT)
          && (j < |w.calls| - 1 || w.end == Stopped ==>
                w.calls[j].ret == TIMEOUT || 0 <= w.calls[j].ret < w.calls[j].left))
    && w.script == (if |w.calls| <= |script| then script[|w.calls|..] else [])
    && w.stop == (if w.end == Stopped then Rest(stop[|w.calls|..]) else stop[|w.calls|..])
  }

  /** And how it ends: stopped by a test of done that finds true; or by its last call, which takes all that is left,
      fails, or claims too much. Exactly a failure is reported, with that call's flags and time. */
  ghost predicate Ends(stop: seq<bool>, w: Writes) {
    if w.end == Stopped then FoundTrue(stop, w.stop) && Report(w) == []
    else
      && w.calls != []
      && var last := w.calls[|w.calls| - 1];
         match w.end
         case AllWritten => last.ret == last.left && Report(w) == []
         case Overrun => last.ret > last.left && Report(w) == []
         case Failed(code) =>
           last.ret == code && code < 0 && code != TIMEOUT && Report(w) == [Status(code, last.flags, last.time)]
         case Stopped => true
  }

  lemma {:induction false} LoopGoes(es: nat, script: seq<int>, stop: seq<bool>, data: seq<seq<byte>>, left: nat,
                                    flags: Flags, time: int)
    requires Sized(es, data, left)
    ensures var w := WriteLoop(es, script, stop, data, left, flags, time);
            Goes(script, stop, w) && Ends(stop, w) && LeftOf(w.stop, stop)
    decreases |stop|
  {
    hide WriteLoop, Goes, Ends, LeftOf;
    var ret := NextRet(script);
    var call := Write(data, left, flags, time, ret);
    var w := WriteLoop(es, script, stop, data, left, flags, time);
    LoopStep(es, script, stop, data, left, flags, time);
    GoesOnce(script, stop, call, w);
    if !(stop == [] || stop[0]) {
      if ret == TIMEOUT {
        LoopGoes(es, Rest(script), Rest(stop), data, left, flags, time);
        GoesOn(script, stop, call, WriteLoop(es, Rest(script), Rest(stop), data, left, flags, time));
      } else if 0 <= ret < left {
        var rest, cleared := Back(data, ret * es), flags.(hasTime := false);
        LoopGoes(es, Rest(script), Rest(stop), rest, left - ret, cleared, time);
        GoesOn(script, stop, call, WriteLoop(es, Rest(script), Rest(stop), rest, left - ret, cleared, time));
      }
    }
  }

  lemma GoesOnce(script: seq<int>, stop: seq<bool>, call: Write, w: Writes)
    requires call.ret == NextRet(script)
    ensures w.calls == [] && w.end == Stopped && w.script == script && w.stop == Rest(stop) ==>
              stop == [] || stop[0] ==> Goes(script, stop, w) && Ends(stop, w) && LeftOf(w.stop, stop)
    ensures stop != [] && !stop[0] && w.calls == [call] && w.script == Rest(script) && w.stop == Rest(stop) ==>
              && (w.end == AllWritten && call.ret == call.left ==>
                    Goes(script, stop, w) && Ends(stop, w) && LeftOf(w.stop, stop))
              && (w.end == Overrun && call.ret > call.left ==>
                    Goes(script, stop, w) && Ends(stop, w) && LeftOf(w.stop, stop))
              && (w.end == Failed(call.ret) && call.ret < 0 && call.ret != TIMEOUT ==>
                    Goes(script, stop, w) && Ends(stop, w) && LeftOf(w.stop, stop))
  {
  }

  lemma GoesOn(script: seq<int>, stop: seq<bool>, call: Write, v: Writes)
    requires stop != [] && !stop[0] && call.ret == NextRet(script)
    requires call.ret == TIMEOUT || 0 <= call.ret < call.left
    requires Goes(Rest(script), Rest(stop), v) && Ends(Rest(stop), v) && LeftOf(v.stop, Rest(stop))
    ensures var w := After([call], v); Goes(script, stop, w) && Ends(stop, w) && LeftOf(w.stop, stop)
  {
    hide Goes, Ends, LeftOf;
    OneMoreGoes(script, stop, call, v);
    OneMoreEnds(stop, call, v);
    WithoutFirst(stop);
    LeftOfTwice(v.stop, Rest(stop), stop);
  }

  lemma OneMoreGoes(script: seq<int>, stop: seq<bool>, call: Write, v: Writes)
    requires stop != [] && !stop[0] && call.ret == NextRet(script)
    requires call.ret == TIMEOUT || 0 <= call.ret < call.left
    requires Goes(Rest(script), Rest(stop), v)
    ensures Goes(script, stop, After([call], v))
  {
    var w := After([call], v);
    assert w.calls == [call] + v.calls && stop[|w.calls|..] == Rest(stop)[|v.calls|..];
    forall j | 0 <= j < |w.calls|
      ensures !stop[j] && w.calls[j].ret == (if j < |script| then script[j] else TIMEOUT)
      ensures j < |w.calls| - 1 || w.end == Stopped ==>
                w.calls[j].ret == TIMEOUT || 0 <= w.calls[j].ret < w.calls[j].left
    {
      if j > 0 {
        assert w.calls[j] == v.calls[j - 1] && stop[j] == Rest(stop)[j - 1];
      }
    }
  }

  lemma OneMoreEnds(stop: seq<bool>, call: Write, v: Writes)
    requires stop != [] && Ends(Rest(stop), v) && LeftOf(v.stop, Rest(stop))
    ensures Ends(stop, After([call], v))
  {
    var w := After([call], v);
    assert v.calls != [] ==> w.calls[|w.calls| - 1] == v.calls[|v.calls| - 1];
  }

  lemma AfterOne(calls: seq<Write>, call: Write, w: Writes)
    ensures After(calls + [call], w) == After(calls, After([call], w))
  {
    Assoc(calls, [call], w.calls);
  }

  /** A datagram that was handled, with the device's answers and the tests of done from then on. */
  datatype Handled = Handled(d: seq<byte>, script: seq<int>, stop: seq<bool>) {
    ghost predicate Valid(l: Layout)
      requires l.Valid()
    {
      WellFormed(l, d) && Decode(d).elems >= 0
    }

    /** The writes it led to. */
    ghost function Written(l: Layout): Writes
      requires l.Valid() && Valid(l)
    {
      var h := Decode(d);
      WriteLoop(l.elemSize, script, stop, Channels(l, d, h.elems), h.elems, h.flags, h.time)
    }
  }

  /** The datagrams of a log, the calls they led to and the failures that were reported, each in order. */
  function DatagramsOf(log: seq<Handled>): (r: seq<seq<byte>>)
    ensures |r| == |log|
  {
    seq(|log|, k requires 0 <= k < |log| => log[k].d)
  }

  ghost predicate ValidLog(l: Layout, log: seq<Handled>)
    requires l.Valid()
  {
    forall k :: 0 <= k < |log| ==> log[k].Valid(l)
  }

  ghost function CallsOf(l: Layout, log: seq<Handled>): seq<Write>
    requires l.Valid() && ValidLog(l, log)
  {
    if log == [] then [] else CallsOf(l, log[..|log| - 1]) + log[|log| - 1].Written(l).calls
  }

  ghost function ReportsOf(l: Layout, log: seq<Handled>): seq<Status>
    requires l.Valid() && ValidLog(l, log)
  {
    if log == [] then [] else ReportsOf(l, log[..|log| - 1]) + Report(log[|log| - 1].Written(l))
  }

  lemma LogMore(l: Layout, log: seq<Handled>, h: Handled, calls: seq<Write>, statuses: seq<Status>)
    requires l.Valid() && ValidLog(l, log) && h.Valid(l)
    ensures ValidLog(l, log + [h]) && DatagramsOf(log + [h]) == DatagramsOf(log) + [h.d]
    ensures calls + CallsOf(l, log + [h]) == (calls + CallsOf(l, log)) + h.Written(l).calls
    ensures statuses + ReportsOf(l, log + [h]) == (statuses + ReportsOf(l, log)) + Report(h.Written(l))
  {
    hide Handled.Written, Report;
    assert (log + [h])[..|log|] == log;
    Assoc(calls, CallsOf(l, log), h.Written(l).calls);
    Assoc(statuses, ReportsOf(l, log), Report(h.Written(l)));
  }

  // ---------- the turns of the loop ----------

  /** The worker before a turn: what has come in and was not taken yet, and what the device and done will answer. */
  datatype Worker = Worker(queue: seq<seq<byte>>, script: seq<int>, stop: seq<bool>)

  /** A turn of the loop, when batch has come in: if anything waits its front is handled, and nothing else. */
  ghost predicate IsTurn(c: Link, w: Worker, batch: seq<seq<byte>>, made: seq<Handled>, w': Worker)
    requires c.l.Valid()
  {
    var q := w.queue + batch;
    if q == [] then made == [] && w' == w
    else
      && |made| == 1 && made[0] == Handled(q[0], w.script, w.stop) && made[0].Valid(c.l)
      && w' == Worker(q[1..], made[0].Written(c.l).script, made[0].Written(c.l).stop)
  }

  /** A turn that makes the worker quit: what is at the front is an error code or not whole. */
  ghost predicate Quits(c: Link, w: Worker, batch: seq<seq<byte>>)
    requires c.l.Valid()
  {
    var q := w.queue + batch;
    q != [] && Usable(c, q[0]) && RetOf(c.datagram, q[0]) < 0
  }

  /** A turn with the worker before it, at the test of done that lets it begin, and the datagrams it handled. */
  datatype Turn = Turn(before: Worker, made: seq<Handled>)

  function BatchAt(batches: seq<seq<seq<byte>>>, k: nat): seq<seq<byte>> {
    if k < |batches| then batches[k] else []
  }

  /** The turns lead from one state of the worker to another: each follows a test that found false. */
  ghost predicate Turns(c: Link, first: Worker, batches: seq<seq<seq<byte>>>, turns: seq<Turn>, last: Worker)
    requires c.l.Valid()
    decreases |turns|
  {
    if turns == [] then first == last
    else
      var n, w := |turns| - 1, turns[|turns| - 1].before;
      && Turns(c, first, batches, turns[..n], w)
      && w.stop != [] && !w.stop[0]
      && IsTurn(c, w.(stop := w.stop[1..]), BatchAt(batches, n), turns[n].made, last)
  }

  function LogOf(turns: seq<Turn>): seq<Handled> {
    if turns == [] then [] else LogOf(turns[..|turns| - 1]) + turns[|turns| - 1].made
  }

  lemma NoTurns(c: Link, first: Worker, batches: seq<seq<seq<byte>>>)
    requires c.l.Valid()
    ensures Turns(c, first, batches, [], first) && LogOf([]) == []
  {
  }

  lemma TurnsMore(c: Link, first: Worker, batches: seq<seq<seq<byte>>>, turns: seq<Turn>, w: Worker,
                  made: seq<Handled>, w': Worker)
    requires c.l.Valid() && Turns(c, first, batches, turns, w) && w.stop != [] && !w.stop[0]
    requires IsTurn(c, w.(stop := w.stop[1..]), BatchAt(batches, |turns|), made, w')
    ensures Turns(c, first, batches, turns + [Turn(w, made)], w')
    ensures LogOf(turns + [Turn(w, made)]) == LogOf(turns) + made
  {
    hide IsTurn;
    assert (turns + [Turn(w, made)])[..|turns|] == turns;
  }

  lemma {:induction false} TurnsLeave(c: Link, first: Worker, batches: seq<seq<seq<byte>>>, turns: seq<Turn>,
                                      last: Worker)
    requires c.l.Valid() && Turns(c, first, batches, turns, last)
    ensures LeftOf(last.stop, first.stop)
    decreases |turns|
  {
    hide WriteLoop, LeftOf, Goes, Ends, WellFormed, Decode;
    if turns == [] {
      Itself(first.stop);
    } else {
      var n, w := |turns| - 1, turns[|turns| - 1].before;
      TurnsLeave(c, first, batches, turns[..n], w);
      WithoutFirst(w.stop);
      LeftOfTwice(w.stop[1..], w.stop, first.stop);
      if turns[n].made != [] {
        HandledLeaves(c.l, turns[n].made[0]);
        LeftOfTwice(last.stop, w.stop[1..], first.stop);
      }
    }
  }

  lemma HandledLeaves(l: Layout, h: Handled)
    requires l.Valid() && h.Valid(l)
    ensures LeftOf(h.Written(l).stop, h.stop)
  {
    var e := Decode(h.d);
    LoopGoes(l.elemSize, h.script, h.stop, Channels(l, h.d, e.elems), e.elems, e.flags, e.time);
  }

  datatype Outcome = Waiting | Done | Quit

  class ServerStreamData {
    const device: OutputDevice
    const endpoint: StreamEndpoint

    // the outcomes of the coming tests of done
    var stop: seq<bool>
    // what was reported on the status socket
    var statuses: seq<Status>

    constructor (device: OutputDevice, endpoint: StreamEndpoint, stop: seq<bool>)
      ensures this.device == device && this.endpoint == endpoint && this.stop == stop && statuses == []
    {
      this.device, this.endpoint, this.stop, statuses := device, endpoint, stop, [];
    }

    method IsDone() returns (done: bool)
      modifies `stop
      ensures done == (old(stop) == [] || old(stop)[0]) && stop == Rest(old(stop))
    {
      done := stop == [] || stop[0];
      stop := Rest(stop);
    }

    /** The loop that writes one datagram's samples to the device. */
    method WriteDatagram(es: nat, buf: array<byte>, buffs0: seq<nat>, ret0: nat, flags0: Flags, time: int)
      returns (ghost w: Writes)
      requires forall i :: 0 <= i < |buffs0| ==> buffs0[i] + ret0 * es <= buf.Length
      modifies `stop, `statuses, device
      ensures w == WriteLoop(es, old(device.script), old(stop), Slices(buf[..], buffs0, ret0 * es), ret0, flags0, time)
      ensures device.calls == old(device.calls) + w.calls
      ensures device.script == w.script && stop == w.stop && statuses == old(statuses) + Report(w)
    {
      hide WriteLoop, Report, Slices, Moved, Back;
      w := WriteLoop(es, device.script, stop, Slices(buf[..], buffs0, ret0 * es), ret0, flags0, time);
      var buffs, flags := buffs0, flags0;
      var elemsLeft: nat := ret0;
      ghost var calls := [];
      AfterNothing(w);
      while true
        invariant forall i :: 0 <= i < |buffs| ==> buffs[i] + elemsLeft * es <= buf.Length
        invariant w == After(calls, WriteLoop(es, device.script, stop, Slices(buf[..], buffs, elemsLeft * es),
                                              elemsLeft, flags, time))
        invariant device.calls == old(device.calls) + calls && statuses == old(statuses)
        decreases |stop|
      {
        ghost var data, script, before := Slices(buf[..], buffs, elemsLeft * es), device.script, calls;
        LoopStep(es, script, stop, data, elemsLeft, flags, time);
        var done := IsDone();
        if done {
          NoReport(w);
          break;
        }
        var ret := device.WriteStream(es, buf, buffs, elemsLeft, flags, time);
        ghost var call := Write(data, elemsLeft, flags, time, ret);
        calls := calls + [call];
        if ret == TIMEOUT {
          AfterOne(before, call, WriteLoop(es, device.script, stop, data, elemsLeft, flags, time));
          continue;
        }
        if ret < 0 {
          statuses := statuses + [Status(ret, flags, time)];
          FailureReport(w, before, call);
          break;
        }
        if elemsLeft < ret {
          NoReport(w);
          break;
        }
        MoveSlices(buf[..], buffs, elemsLeft, ret, es);
        elemsLeft := elemsLeft - ret;
        buffs := Moved(buffs, ret * es);
        if elemsLeft == 0 {
          NoReport(w);
          break;
        }
        flags := flags.(hasTime := false);
        AfterOne(before, call, WriteLoop(es, device.script, stop, Slices(buf[..], buffs, elemsLeft * es), elemsLeft,
                                         flags, time));
      }
    }

    ghost function Here(): Link {
      Link(endpoint.layout, endpoint.streamSock.datagram)
    }

    /** No handle is held and the transport holds exactly what is in the queue. */
    ghost predicate Ready(queue: seq<seq<byte>>)
      reads endpoint, endpoint.acquired, endpoint.streamSock
    {
      && endpoint.Valid() && endpoint.numHandlesAcquired == 0
      && Takeable(Here(), queue) && Transported(Here(), endpoint.streamSock.inbox, queue)
    }

    lemma ReadyParts(queue: seq<seq<byte>>)
      requires Ready(queue)
      ensures endpoint.Valid() && endpoint.layout.Valid() && endpoint.numHandlesAcquired == 0
      ensures Takeable(Here(), queue)
    {
    }

    /** acquireRecv of the front datagram, or of a packet that is not whole. */
    method Receive(ghost queue: seq<seq<byte>>)
      returns (ret: int, handle: nat, buffs: seq<nat>, flags: Flags, time: int)
      requires Ready(queue) && endpoint.streamSock.inbox != []
      modifies endpoint, endpoint.acquired, endpoint.buffData, endpoint.streamSock
      ensures endpoint.Valid() && queue != [] && Usable(Here(), queue[0])
      ensures Transported(Here(), endpoint.streamSock.inbox, queue[1..])
      ensures var d := queue[0];
              && ret == RetOf(Here().datagram, d)
              && if ret < 0 then endpoint.numHandlesAcquired == 0
                 else
                   && WellFormed(endpoint.layout, d) && ret == Decode(d).elems
                   && flags == Decode(d).flags && time == Decode(d).time
                   && handle < NUM_BUFFS && endpoint.Handles().Fifo() == [Entry(handle, false)]
                   && (forall i :: 0 <= i < |buffs| ==>
                         buffs[i] + ret * endpoint.layout.elemSize <= endpoint.layout.xferSize)
                   && Slices(endpoint.buffData[handle][..], buffs, ret * endpoint.layout.elemSize)
                        == Channels(endpoint.layout, d, ret)
    {
      hide Decode, Flatten, Layout.BuffSize, Layout.Offset, Layout.Bytes, Ring.Reclaim, Seqs.AckDue;
      UnitArrives(Here(), endpoint.streamSock.inbox, queue);
      AcquireRefines(endpoint.Handles());
      ghost var inbox, d, b := endpoint.streamSock.inbox, queue[0], endpoint.buffData[endpoint.nextHandleAcquire][..];
      ghost var q := endpoint.Handles().Fifo();
      ret, handle, buffs, flags, time := endpoint.AcquireRecv([], NO_FLAGS, 0);
      assert q == [];
      assert Consumed(Here().datagram, inbox, d, endpoint.streamSock.inbox);
      AfterFront(Here(), inbox, queue, endpoint.streamSock.inbox);
      if ret >= 0 {
        ReceivedChannels(endpoint.layout, b, d, ret, buffs);
      }
    }

    /** Takes in the front datagram, writes its samples to the device and gives the handle back; an error code or a
        packet that is not whole is an error. */
    method TakeDatagram(ghost queue: seq<seq<byte>>) returns (ok: bool, ghost h: Handled)
      requires Ready(queue) && endpoint.streamSock.inbox != []
      modifies `stop, `statuses, device, endpoint, endpoint.acquired, endpoint.buffData, endpoint.streamSock
      ensures queue != [] && h == Handled(queue[0], old(device.script), old(stop)) && Usable(Here(), h.d)
      ensures |stop| <= |old(stop)|
      ensures endpoint.Valid() && endpoint.numHandlesAcquired == 0
      ensures Transported(Here(), endpoint.streamSock.inbox, queue[1..]) && (ok ==> Ready(queue[1..]))
      ensures ok == (RetOf(Here().datagram, h.d) >= 0)
      ensures if ok then
                && h.Valid(endpoint.layout)
                && device.calls == old(device.calls) + h.Written(endpoint.layout).calls
                && statuses == old(statuses) + Report(h.Written(endpoint.layout))
                && device.script == h.Written(endpoint.layout).script && stop == h.Written(endpoint.layout).stop
              else
                && device.calls == old(device.calls) && statuses == old(statuses)
                && device.script == old(device.script) && stop == old(stop)
    {
      hide WriteLoop, Decode, Flatten, Layout.BuffSize, Layout.Offset, Layout.Bytes, Ring.Reclaim, Report, Transported;
      var ret, handle, buffs, flags, time := Receive(queue);
      h := Handled(queue[0], device.script, stop);
      ok := ret >= 0;
      if ok {
        ghost var w := WriteDatagram(endpoint.layout.elemSize, endpoint.buffData[handle], buffs, ret, flags, time);
        ReleaseRefines(endpoint.Handles(), handle);
        ReleaseOnly(handle);
        endpoint.ReleaseRecv(handle);
      }
    }

    /** One turn of the worker loop: waits for a datagram and handles it. */
    method Cycle(arrived: seq<seq<byte>>, ghost batch: seq<seq<byte>>, ghost queue: seq<seq<byte>>)
      returns (out: Outcome, ghost h: Handled, ghost rest: seq<seq<byte>>)
      requires Ready(queue) && Takeable(Here(), queue + batch) && Transported(Here(), arrived, batch)
      modifies `stop, `statuses, device, endpoint, endpoint.acquired, endpoint.buffData, endpoint.streamSock
      ensures endpoint.Valid() && endpoint.numHandlesAcquired == 0 && |stop| <= |old(stop)|
      ensures queue + batch == (if out == Waiting then [] else [h.d]) + rest
      ensures out == Quit <==> Quits(Here(), old(Now(queue)), batch)
      ensures out == Quit ==> stop == old(stop)
      ensures out != Quit ==>
                IsTurn(Here(), old(Now(queue)), batch, if out == Done then [h] else [], Now(rest))
      ensures if out == Done then
                && h.Valid(endpoint.layout)
                && device.calls == old(device.calls) + h.Written(endpoint.layout).calls
                && statuses == old(statuses) + Report(h.Written(endpoint.layout))
              else device.calls == old(device.calls) && statuses == old(statuses)
      ensures if out == Quit then Usable(Here(), h.d) && RetOf(Here().datagram, h.d) < 0 else Ready(rest)
      ensures out == Done ==> Usable(Here(), h.d) && RetOf(Here().datagram, h.d) >= 0
    {
      hide Handled.Written, Handled.Valid, WellFormed, Decode, Flatten, Report, Usable, RetOf, Takeable, Transported,
           Layout.Valid;
      TransportedAppend(Here(), endpoint.streamSock.inbox, queue, arrived, batch);
      rest, h := queue + batch, Handled([], [], []);
      endpoint.streamSock.Arrive(arrived);
      SomethingWaits(Here(), endpoint.streamSock.inbox, rest);
      var ready := endpoint.WaitRecv();
      if !ready {
        return Waiting, h, rest;
      }
      var ok;
      ok, h := TakeDatagram(rest);
      assert rest == [rest[0]] + rest[1..];
      rest := rest[1..];
      out := if ok then Done else Quit;
    }

    ghost function Now(queue: seq<seq<byte>>): Worker
      reads this, device
    {
      Worker(queue, device.script, stop)
    }

    /** The worker's run so far: the datagrams that came in were handled in order, except for the rest. */
    ghost predicate Run(log: seq<Handled>, came: seq<seq<byte>>, rest: seq<seq<byte>>,
                        calls: seq<Write>, statuses: seq<Status>)
      reads this, device, endpoint, endpoint.acquired
    {
      && endpoint.Valid() && endpoint.numHandlesAcquired == 0 && ValidLog(endpoint.layout, log)
      && came == DatagramsOf(log) + rest
      && device.calls == calls + CallsOf(endpoint.layout, log)
      && this.statuses == statuses + ReportsOf(endpoint.layout, log)
    }

    /** A turn as part of a run; later is what is still to come. */
    method LoggedCycle(arrived: seq<seq<byte>>, ghost batch: seq<seq<byte>>, ghost later: seq<seq<byte>>,
                       ghost log0: seq<Handled>, ghost came: seq<seq<byte>>, ghost rest0: seq<seq<byte>>,
                       ghost calls: seq<Write>, ghost statuses0: seq<Status>)
      returns (quit: bool, ghost made: seq<Handled>, ghost log: seq<Handled>, ghost rest: seq<seq<byte>>)
      requires Ready(rest0) && Takeable(Here(), rest0 + batch + later) && Transported(Here(), arrived, batch)
      requires Run(log0, came, rest0, calls, statuses0)
      modifies `stop, `statuses, device, endpoint, endpoint.acquired, endpoint.buffData, endpoint.streamSock
      ensures Run(log, came + batch, rest, calls, statuses0) && |stop| <= |old(stop)| && log == log0 + made
      ensures quit <==> Quits(Here(), old(Now(rest0)), batch)
      ensures quit ==> stop == old(stop) && rest == rest0 + batch
      ensures !quit ==> IsTurn(Here(), old(Now(rest0)), batch, made, Now(rest))
      ensures if quit then rest != [] && Usable(Here(), rest[0]) && RetOf(Here().datagram, rest[0]) < 0
              else Ready(rest) && Takeable(Here(), rest + later)
    {
      hide Handled.Written, WellFormed, Decode, Flatten, Report, CallsOf, ReportsOf, Transported, IsTurn, Quits;
      var out;
      ghost var h, next;
      TakeableFront(Here(), rest0 + batch, later);
      out, h, next := Cycle(arrived, batch, rest0);
      Assoc(DatagramsOf(log0), rest0, batch);
      made, log, rest, quit := [], log0, next, out == Quit;
      if quit {
        rest := [h.d] + next;
      } else if out == Done {
        LogMore(endpoint.layout, log0, h, calls, statuses0);
        Assoc(DatagramsOf(log0), [h.d], next);
        made, log := [h], log0 + [h];
        TakeableBehind(Here(), h.d, next, later);
      } else {
        assert [] + next == next;
      }
    }

    /** The worker: arrivals[k], which holds the datagrams batches[k], comes in before its k-th wait; in datagram mode
        there may be packets in their place. It makes a turn after every test of done that finds false, up to a test
        that finds true, unless it quits over an error code or a packet that is not whole. So every datagram is handled
        once and in order, and no handle stays held. */
    method RecvEndpointWork(arrivals: seq<seq<seq<byte>>>, ghost batches: seq<seq<seq<byte>>>,
                            ghost queue: seq<seq<byte>>)
      returns (quit: bool, ghost turns: seq<Turn>, ghost last: Worker,
               ghost log: seq<Handled>, ghost rest: seq<seq<byte>>, ghost waits: nat)
      requires Ready(queue) && |batches| == |arrivals| && Takeable(Here(), queue + Flatten(batches))
      requires forall k :: 0 <= k < |arrivals| ==> Transported(Here(), arrivals[k], batches[k])
      modifies `stop, `statuses, device, endpoint, endpoint.acquired, endpoint.buffData, endpoint.streamSock
      ensures endpoint.Valid() && endpoint.numHandlesAcquired == 0
      ensures Turns(Here(), old(Now(queue)), batches, turns, last) && log == LogOf(turns)
      ensures LeftOf(stop, old(stop))
      ensures !quit ==>
                && (last.stop == [] || last.stop[0]) && FoundTrue(old(stop), stop)
                && rest == last.queue && Now(rest) == last.(stop := Rest(last.stop)) && Ready(rest)
      ensures quit ==>
                && last.stop != [] && !last.stop[0] && Quits(Here(), last, BatchAt(batches, |turns|))
                && rest == last.queue + BatchAt(batches, |turns|)
      ensures waits == Min(if quit then |turns| + 1 else |turns|, |batches|)
      ensures DatagramsOf(log) + rest == queue + Flatten(batches[..waits])
      ensures ValidLog(endpoint.layout, log) && device.calls == old(device.calls) + CallsOf(endpoint.layout, log)
      ensures statuses == old(statuses) + ReportsOf(endpoint.layout, log)
    {
      hide Handled.Written, WellFormed, Flatten, Report, CallsOf, ReportsOf, Transported, DatagramsOf, Takeable, Usable,
           ValidLog, IsTurn, Quits, Turns, LogOf, LeftOf, FoundTrue, Handled.Valid, Layout.Valid, Ring.Fifo, RetOf,
           ServerStreamData.Ready, StreamEndpoint.Valid, Before, Behind, BatchAt;
      ghost var start := Now(queue);
      quit, turns, last, log, rest, waits := false, [], start, [], queue, 0;
      ghost var came := queue;
      ReadyParts(queue);
      EmptyLog(endpoint.layout, queue);
      NoBatches(queue, batches);
      NoTurns(Here(), start, batches);
      var done, k := false, 0;
      done := IsDone();
      while !done
        invariant Run(log, came, rest, old(device.calls), old(statuses)) && Ready(rest) && !quit
        invariant k == Min(|turns|, |arrivals|)
        invariant came == queue + Before(batches, |turns|) && Takeable(Here(), rest + Behind(batches, |turns|))
        invariant Turns(Here(), start, batches, turns, last) && log == LogOf(turns)
        invariant Now(rest) == last.(stop := Rest(last.stop)) && done == (last.stop == [] || last.stop[0])
        decreases |stop|, !done
      {
        var arrived := [];
        ghost var batch, later := BatchAt(batches, |turns|), Behind(batches, |turns| + 1);
        BatchStep(Here(), queue, rest, batches, |turns|);
        if k < |arrivals| {
          arrived := arrivals[k];
          k := k + 1;
        }
        ghost var made;
        assert Now(rest) == last.(stop := last.stop[1..]);
        quit, made, log, rest := LoggedCycle(arrived, batch, later, log, came, rest, old(device.calls), old(statuses));
        came := came + batch;
        if quit {
          SameQuit(Here(), last, batch);
          break;
        }
        TurnsMore(Here(), start, batches, turns, last, made, Now(rest));
        turns, last := turns + [Turn(last, made)], Now(rest);
        done := IsDone();
      }
      waits := Min(if quit then |turns| + 1 else |turns|, |batches|);
      BeforeIs(batches, if quit then |turns| + 1 else |turns|);
      TurnsLeave(Here(), start, batches, turns, last);
      if !quit {
        EndsTrue(old(stop), last.stop);
      } else {
        WithoutFirst(last.stop);
        LeftOfTwice(stop, last.stop, old(stop));
      }
    }
  }

  lemma SameQuit(c: Link, w: Worker, batch: seq<seq<byte>>)
    requires c.l.Valid() && w.stop != []
    ensures Quits(c, w.(stop := w.stop[1..]), batch) <==> Quits(c, w, batch)
  {
  }

  /** What came in before the n-th wait, and what comes in from then on. */
  function Before(batches: seq<seq<seq<byte>>>, n: nat): seq<seq<byte>> {
    Flatten(batches[..Min(n, |batches|)])
  }

  function Behind(batches: seq<seq<seq<byte>>>, n: nat): seq<seq<byte>> {
    Flatten(batches[Min(n, |batches|)..])
  }

  lemma BeforeIs(batches: seq<seq<seq<byte>>>, n: nat)
    ensures Before(batches, n) == Flatten(batches[..Min(n, |batches|)])
  {
  }

  lemma NoBatches(queue: seq<seq<byte>>, batches: seq<seq<seq<byte>>>)
    ensures Before(batches, 0) == [] && Behind(batches, 0) == Flatten(batches) && queue + [] == queue
  {
    assert batches[..0] == [] && batches[0..] == batches;
  }

  lemma BatchStep(c: Link, queue: seq<seq<byte>>, rest: seq<seq<byte>>, batches: seq<seq<seq<byte>>>, n: nat)
    ensures queue + Before(batches, n + 1) == queue + Before(batches, n) + BatchAt(batches, n)
    ensures rest + Behind(batches, n) == rest + BatchAt(batches, n) + Behind(batches, n + 1)
    ensures if n < |batches| then BatchAt(batches, n) == batches[n]
            else BatchAt(batches, n) == [] && Transported(c, [], BatchAt(batches, n))
  {
    EmptyTransport(c);
    var batch := BatchAt(batches, n);
    if n < |batches| {
      FlattenOne(batches[..n], batches[n]);
      assert batches[..n + 1] == batches[..n] + [batches[n]] && batches[n..][1..] == batches[n + 1..];
      Assoc(queue, Before(batches, n), batch);
      Assoc(rest, batch, Behind(batches, n + 1));
    } else {
      assert queue + Before(batches, n) + [] == queue + Before(batches, n) && rest + [] == rest;
    }
  }

  lemma TakeableBehind(c: Link, u: seq<byte>, next: seq<seq<byte>>, later: seq<seq<byte>>)
    requires c.l.Valid() && Takeable(c, [u] + next + later) && RetOf(c.datagram, u) >= 0
    ensures Takeable(c, next + later)
  {
    assert ([u] + next + later)[1..] == next + later;
  }

  lemma EmptyTransport(c: Link)
    ensures Transported(c, [], [])
  {
  }

  lemma TransportedAppend(c: Link, inbox: seq<seq<byte>>, queue: seq<seq<byte>>, arrived: seq<seq<byte>>,
                          batch: seq<seq<byte>>)
    requires Transported(c, inbox, queue) && Transported(c, arrived, batch)
    ensures Transported(c, inbox + arrived, queue + batch)
  {
    FlattenAppend(inbox, arrived);
    FlattenAppend(queue, batch);
  }

  lemma EmptyLog(l: Layout, queue: seq<seq<byte>>)
    requires l.Valid()
    ensures ValidLog(l, []) && CallsOf(l, []) == [] && ReportsOf(l, []) == [] && DatagramsOf([]) == []
    ensures queue + Flatten<seq<byte>>([]) == queue && [] + queue == queue
  {
  }

  lemma AfterNothing(w: Writes)
    ensures After([], w) == w
  {
    assert [] + w.calls == w.calls;
  }

  lemma NoReport(w: Writes)
    requires !w.end.Failed?
    ensures Report(w) == []
  {
  }

  lemma FailureReport(w: Writes, before: seq<Write>, call: Write)
    requires w.end.Failed? && w.calls == before + [call]
    ensures Report(w) == [Status(call.ret, call.flags, call.time)]
  {
  }

  lemma MoveSlices(buf: seq<byte>, offs: seq<nat>, left: nat, n: nat, es: nat)
    requires n <= left && forall i :: 0 <= i < |offs| ==> offs[i] + left * es <= |buf|
    ensures var s := Slices(buf, offs, left * es);
            && (forall i :: 0 <= i < |offs| ==> n * es <= |s[i]| && Moved(offs, n * es)[i] + (left - n) * es <= |buf|)
            && Back(s, n * es) == Slices(buf, Moved(offs, n * es), (left - n) * es)
  {
    FragmentBytes(es, left, n);
    SlicesSplit(buf, offs, left * es, n * es);
  }
}
