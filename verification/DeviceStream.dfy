/** The device as the workers see it: an adversary that answers every call as a script says. */
module DeviceStream {
  import opened Arithmetic
  import opened Bytes
  import opened Sockets
  import opened BufferLayout
  import opened StreamFlags

  const TIMEOUT: int := -1

  /** The answer to one readStream call: count elements for each channel, a timeout, or an error code. */
  datatype Reply = Timeout | Fault(code: int) | Samples(count: nat, data: seq<seq<byte>>, flags: Flags, time: int) {
    ghost predicate Valid(l: Layout) {
      match this
      case Timeout => true
      case Fault(code) => Fits(4, code) && code < 0 && code != TIMEOUT
      case Samples(count, data, flags, time) =>
        flags.Valid() && Fits(8, time) && |data| == l.numChans
            && forall i :: 0 <= i < |data| ==> |data[i]| == count * l.elemSize
    }

    /** A device never delivers more elements than were asked for. */
    function Clip(l: Layout, n: nat): (r: Reply)
      requires Valid(l)
      ensures r.Valid(l) && (r.Samples? <==> Samples?) && (r.Samples? ==> r.count <= n)
    {
      match this
      case Samples(count, data, flags, time) =>
        if count <= n then this
        else
          MulMonotone(n, count, l.elemSize);
          Samples(n, seq(|data|, i requires 0 <= i < |data| => data[i][..n * l.elemSize]), flags, time)
      case _ => this
    }

    function Ret(): int {
      match this
      case Timeout => TIMEOUT
      case Fault(code) => code
      case Samples(count, _, _, _) => count
    }

    function Count(): nat {
      if Samples? then count else 0
    }

    function OutFlags(): Flags {
      if Samples? then flags else NO_FLAGS
    }

    /** What each of n channels gets. */
    function Data(n: nat): (d: seq<seq<byte>>) {
      if Samples? then data else NoData(n)
    }
  }

  function NoData(n: nat): (d: seq<seq<byte>>)
    ensures |d| == n && forall i :: 0 <= i < n ==> d[i] == []
  {
    seq(n, _ => [])
  }

  ghost predicate ValidScript(l: Layout, script: seq<Reply>) {
    forall i :: 0 <= i < |script| ==> script[i].Valid(l)
  }

  /** The answer to the next call; a device whose script is used up times out. */
  function Answer(l: Layout, script: seq<Reply>, n: nat): (r: Reply)
    requires ValidScript(l, script)
    ensures r.Valid(l) && (r.Samples? ==> r.count <= n)
  {
    if script == [] then Timeout else script[0].Clip(l, n)
  }

  function Rest<T>(s: seq<T>): seq<T> {
    if s == [] then [] else s[1..]
  }

  // ---------- the tests of done ----------

  /** What is left of the tests of done. */
  predicate LeftOf(rest: seq<bool>, stop: seq<bool>) {
    |rest| <= |stop| && rest == stop[|stop| - |rest|..]
  }

  /** The last test of done that was made found true: one that is listed, or one past the end of the list. */
  predicate FoundTrue(stop: seq<bool>, rest: seq<bool>) {
    rest == [] || (|rest| < |stop| && stop[|stop| - |rest| - 1])
  }

  lemma LeftOfTwice(a: seq<bool>, b: seq<bool>, c: seq<bool>)
    requires LeftOf(a, b) && LeftOf(b, c)
    ensures LeftOf(a, c)
  {
  }

  lemma Itself(s: seq<bool>)
    ensures LeftOf(s, s)
  {
  }

  lemma WithoutFirst(s: seq<bool>)
    requires s != []
    ensures LeftOf(s[1..], s)
  {
  }

  /** A test that finds true, after what is left of the tests. */
  lemma EndsTrue(stop: seq<bool>, rest: seq<bool>)
    requires LeftOf(rest, stop) && (rest == [] || rest[0])
    ensures LeftOf(Rest(rest), stop) && FoundTrue(stop, Rest(rest))
  {
  }

  // ---------- samples in a buffer ----------

  /** after is before with data[i] written at offs[i], and nothing else changed. */
  ghost predicate Scattered(before: seq<byte>, after: seq<byte>, offs: seq<nat>, data: seq<seq<byte>>) {
    && |before| == |after| && |offs| == |data|
    && (forall i :: 0 <= i < |offs| ==>
          offs[i] + |data[i]| <= |after| && after[offs[i]..offs[i] + |data[i]|] == data[i])
    && (forall p | 0 <= p < |after| && (forall i :: 0 <= i < |offs| ==> !(offs[i] <= p < offs[i] + |data[i]|)) ::
          after[p] == before[p])
  }

  /** The regions of n bytes at the given offsets lie in a buffer of size bytes, in order. */
  ghost predicate Separate(offs: seq<nat>, n: nat, size: nat) {
    && (forall i :: 0 <= i < |offs| ==> offs[i] + n <= size)
    && (forall i, j :: 0 <= i < j < |offs| ==> offs[i] + n <= offs[j])
  }

  class Device {
    var script: seq<Reply>

    // everything delivered so far, for each channel
    ghost var produced: seq<seq<byte>>

    constructor (l: Layout, script: seq<Reply>)
      requires ValidScript(l, script)
      ensures this.script == script && produced == NoData(l.numChans)
    {
      this.script := script;
      produced := NoData(l.numChans);
    }

    /** device->readStream into the channels' places in a buffer. */
    method ReadStream(l: Layout, buf: array<byte>, offs: seq<nat>, numElems: nat, time0: int)
      returns (ghost r: Reply, ret: int, flags: Flags, time: int)
      requires ValidScript(l, script) && |offs| == l.numChans == |produced|
      requires Separate(offs, numElems * l.elemSize, buf.Length)
      modifies this, buf
      ensures r == Answer(l, old(script), numElems) && script == Rest(old(script))
      ensures ret == r.Ret() && flags == r.OutFlags()
      ensures time == if r.Samples? then r.time else time0
      ensures produced == Appended(old(produced), r.Data(l.numChans))
      ensures if r.Samples? then Scattered(old(buf[..]), buf[..], offs, r.data) else buf[..] == old(buf[..])
    {
      var a := Answer(l, script, numElems);
      r := a;
      script := Rest(script);
      ret, flags, time := a.Ret(), a.OutFlags(), time0;
      produced := Appended(produced, a.Data(l.numChans));
      if a.Samples? {
        time := a.time;
        MulMonotone(a.count, numElems, l.elemSize);
        Scatter(buf, offs, a.data);
      }
    }
  }

  /** Each channel's stream with its new piece appended. */
  function Appended(s: seq<seq<byte>>, d: seq<seq<byte>>): (r: seq<seq<byte>>)
    requires |s| == |d|
    ensures |r| == |s| && forall i :: 0 <= i < |r| ==> r[i] == s[i] + d[i]
  {
    seq(|s|, i requires 0 <= i < |s| => s[i] + d[i])
  }

  lemma AppendNothing(s: seq<seq<byte>>)
    ensures Appended(s, NoData(|s|)) == s
  {
    assert forall i :: 0 <= i < |s| ==> s[i] + NoData(|s|)[i] == s[i];
  }

  method Scatter(buf: array<byte>, offs: seq<nat>, data: seq<seq<byte>>)
    requires |offs| == |data|
    requires forall i :: 0 <= i < |offs| ==> offs[i] + |data[i]| <= buf.Length
    requires forall i, j :: 0 <= i < j < |offs| ==> offs[i] + |data[i]| <= offs[j]
    modifies buf
    ensures Scattered(old(buf[..]), buf[..], offs, data)
  {
    ghost var b := buf[..];
    for c := 0 to |offs|
      invariant Scattered(b, buf[..], offs[..c], data[..c])
    {
      ghost var before := buf[..];
      CopyIn(buf, offs[c], data[c]);
      ScatterStep(b, before, buf[..], offs, data, c);
    }
    assert offs[..|offs|] == offs && data[..|offs|] == data;
  }

  lemma ScatterStep(b: seq<byte>, before: seq<byte>, after: seq<byte>, offs: seq<nat>, data: seq<seq<byte>>, c: nat)
    requires |offs| == |data| && c < |offs|
    requires forall i :: 0 <= i < |offs| ==> offs[i] + |data[i]| <= |before|
    requires forall i, j :: 0 <= i < j < |offs| ==> offs[i] + |data[i]| <= offs[j]
    requires Scattered(b, before, offs[..c], data[..c])
    requires after == Written(before, offs[c], data[c])
    ensures Scattered(b, after, offs[..c + 1], data[..c + 1])
  {
    forall i | 0 <= i < c + 1
      ensures after[offs[i]..offs[i] + |data[i]|] == data[i]
    {
      if i < c {
        assert after[offs[i]..offs[i] + |data[i]|] == before[offs[i]..offs[i] + |data[i]|];
        assert before[offs[..c][i]..offs[..c][i] + |data[..c][i]|] == data[..c][i];
      }
    }
    var o, d := offs[..c + 1], data[..c + 1];
    forall p | 0 <= p < |after| && (forall i :: 0 <= i < |o| ==> !(o[i] <= p < o[i] + |d[i]|))
      ensures after[p] == b[p]
    {
      assert !(o[c] <= p < o[c] + |d[c]|);
      forall i | 0 <= i < c
        ensures !(offs[..c][i] <= p < offs[..c][i] + |data[..c][i]|)
      {
        assert !(o[i] <= p < o[i] + |d[i]|);
      }
    }
  }

  /** What a second scatter behind the first leaves in channel i: both pieces, one after the other. */
  lemma ScatteredTwice(b0: seq<byte>, b1: seq<byte>, b2: seq<byte>, d1: seq<seq<byte>>, d2: seq<seq<byte>>,
                       x: nat, y: nat, offs: seq<nat>, next: seq<nat>, i: nat)
    requires Separate(offs, x + y, |b0|) && |next| == |offs| == |d1| == |d2| && i < |offs|
    requires forall k :: 0 <= k < |offs| ==> next[k] == offs[k] + x && |d1[k]| == x && |d2[k]| == y
    requires Scattered(b0, b1, offs, d1) && Scattered(b1, b2, next, d2)
    ensures offs[i] + x + y <= |b2| && b2[offs[i]..offs[i] + x + y] == d1[i] + d2[i]
  {
    forall p | offs[i] <= p < offs[i] + x
      ensures b2[p] == b1[p]
    {
      forall k | 0 <= k < |next|
        ensures !(next[k] <= p < next[k] + |d2[k]|)
      {
        if k < i {
          assert offs[k] + (x + y) <= offs[i];
        } else if k > i {
          assert offs[i] + (x + y) <= offs[k];
        }
      }
    }
    assert b2[offs[i]..offs[i] + x] == b1[offs[i]..offs[i] + x];
    assert b2[offs[i]..offs[i] + x + y] == b2[offs[i]..offs[i] + x] + b2[next[i]..next[i] + y];
  }
}
