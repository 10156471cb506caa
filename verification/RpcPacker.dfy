/** The packer: a growing buffer that is sent as one frame (common/SoapyRPCPacker.cpp). */
module RpcPacker {
  import opened Arithmetic
  import opened Bytes
  import opened Sequences
  import opened Sockets
  import opened FloatTransport
  import opened RpcCodec
  import opened RpcValues
  import opened RpcMessage

  class Packer {
    const sock: Socket
    const remoteVersion: nat
    // the allocation; capacity is the source's own count of it, which nothing updates
    var message: array<byte>
    var size: nat
    var capacity: nat

    ghost predicate Valid()
      reads this, message
    {
      !sock.datagram && HEADER_LENGTH <= size <= message.Length && capacity == 0
    }

    /** What was packed behind the place of the header. */
    ghost function Payload(): seq<byte>
      requires Valid()
      reads this, message
    {
      message[HEADER_LENGTH..size]
    }

    constructor (sock: Socket, remoteVersion: nat)
      requires !sock.datagram
      ensures this.sock == sock && this.remoteVersion == remoteVersion
      ensures Valid() && Payload() == [] && fresh(message)
    {
      this.sock, this.remoteVersion := sock, remoteVersion;
      message := new byte[0];
      size, capacity := 0, 0;
      new;
      EnsureSpace(512);
      Append(seq(HEADER_LENGTH, _ => 0));
    }

    /** realloc: a new allocation of n bytes that begins with the old bytes. */
    method Realloc(n: nat)
      requires size <= message.Length && size <= n
      modifies `message
      ensures fresh(message) && message.Length == n && message[..size] == old(message[..size])
    {
      var m := new byte[n](_ => 0);
      forall i | 0 <= i < size {
        m[i] := message[i];
      }
      message := m;
    }

    /** Room for length more bytes, with all earlier bytes kept. */
    method EnsureSpace(length: nat)
      requires size <= message.Length && capacity <= message.Length
      modifies `message
      ensures size + length <= message.Length && message[..size] == old(message[..size])
      ensures message == old(message) || fresh(message)
      ensures capacity <= message.Length
    {
      if size + length <= capacity {
        return;
      }
      var newSize := Max(capacity * 2, size + length);
      Realloc(newSize);
    }

    method Append(buff: seq<byte>)
      requires size <= message.Length && capacity <= message.Length
      modifies `message, `size, message
      ensures size == old(size) + |buff| <= message.Length && capacity <= message.Length
      ensures message[..size] == old(message[..size]) + buff
      ensures message == old(message) || fresh(message)
    {
      EnsureSpace(|buff|);
      CopyIn(message, size, buff);
      size := size + |buff|;
    }

    /** pack: a binary blob. */
    method Pack(buff: seq<byte>)
      requires Valid()
      modifies `message, `size, message
      ensures Valid() && Payload() == old(Payload()) + buff
      ensures message == old(message) || fresh(message)
    {
      ghost var before := message[..size];
      Append(buff);
      assert message[HEADER_LENGTH..size] == message[..size][HEADER_LENGTH..] == before[HEADER_LENGTH..] + buff;
    }

    method PackInt(value: int)
      requires Valid()
      modifies `message, `size, message
      ensures Valid() && Payload() == old(Payload()) + EncInt(value)
      ensures message == old(message) || fresh(message)
    {
      Assoc(Payload(), [INT32], SignedBytes(4, value));
      Pack([INT32]);
      Pack(SignedBytes(4, value));
    }

    method PackLong(value: int)
      requires Valid()
      modifies `message, `size, message
      ensures Valid() && Payload() == old(Payload()) + EncLong(value)
      ensures message == old(message) || fresh(message)
    {
      Assoc(Payload(), [INT64], SignedBytes(8, value));
      Pack([INT64]);
      Pack(SignedBytes(8, value));
    }

    method PackDouble(value: real)
      requires Valid()
      modifies `message, `size, message
      ensures Valid() && Payload() == old(Payload()) + EncDouble(value)
      ensures message == old(message) || fresh(message)
    {
      hide EncInt, EncLong, Exponent, Mantissa;
      var exp, man := Exponent(value), Mantissa(value);
      Assoc(Payload(), [FLOAT64], EncInt(exp) + EncLong(man));
      Assoc(Payload() + [FLOAT64], EncInt(exp), EncLong(man));
      Pack([FLOAT64]);
      PackInt(exp);
      PackLong(man);
    }

    method PackString(value: Text)
      requires Valid()
      modifies `message, `size, message
      ensures Valid() && Payload() == old(Payload()) + EncString(value)
      ensures message == old(message) || fresh(message)
    {
      hide EncInt;
      Assoc(Payload(), [STRING], EncInt(|value|) + value);
      Assoc(Payload() + [STRING], EncInt(|value|), value);
      Pack([STRING]);
      PackInt(|value|);
      Pack(value);
    }

    method PackRange(value: Range)
      requires Valid()
      modifies `message, `size, message
      ensures Valid() && Payload() == old(Payload()) + EncRange(remoteVersion, value)
      ensures message == old(message) || fresh(message)
    {
      hide EncDouble;
      ghost var p, lo, hi := Payload(), EncDouble(value.minimum), EncDouble(value.maximum);
      ghost var step := if remoteVersion >= RPC_VERSION then EncDouble(value.step) else [];
      Assoc(p, [RANGE], lo + (hi + step));
      Assoc(p + [RANGE], lo, hi + step);
      Assoc(p + [RANGE] + lo, hi, step);
      Pack([RANGE]);
      PackDouble(value.minimum);
      PackDouble(value.maximum);
      if remoteVersion >= RPC_VERSION {
        PackDouble(value.step);
      }
      assert Payload() == p + [RANGE] + lo + hi + step;
    }

    method PackRangeList(value: seq<Range>)
      requires Valid()
      modifies `message, `size, message
      ensures Valid() && Payload() == old(Payload()) + EncList(RANGE_LIST, RangeEncoder(remoteVersion), value)
      ensures message == old(message) || fresh(message)
    {
      hide EncInt, EncRange, EncMany;
      ghost var p, enc := Payload(), RangeEncoder(remoteVersion);
      EncManyEmpty(enc);
      Pack([RANGE_LIST]);
      PackInt(|value|);
      ghost var q := Payload();
      for i := 0 to |value|
        invariant Valid() && (message == old(message) || fresh(message))
        invariant Payload() == q + EncMany(enc, value[..i])
      {
        EncManyMore(enc, value, i);
        Assoc(q, EncMany(enc, value[..i]), EncRange(remoteVersion, value[i]));
        PackRange(value[i]);
      }
      assert value[..|value|] == value;
      Assoc(p, [RANGE_LIST], EncInt(|value|) + EncMany(enc, value));
      Assoc(p + [RANGE_LIST], EncInt(|value|), EncMany(enc, value));
    }

    /** walk lists the dictionary's entries in the order in which they are walked. */
    method PackKwargs(walk: seq<Entry>)
      requires Valid()
      modifies `message, `size, message
      ensures Valid() && Payload() == old(Payload()) + EncList(KWARGS, EncEntry, walk)
      ensures message == old(message) || fresh(message)
    {
      hide EncInt, EncString, EncMany;
      ghost var p := Payload();
      EncManyEmpty(EncEntry);
      Pack([KWARGS]);
      PackInt(|walk|);
      ghost var q := Payload();
      for i := 0 to |walk|
        invariant Valid() && (message == old(message) || fresh(message))
        invariant Payload() == q + EncMany(EncEntry, walk[..i])
      {
        EncManyMore(EncEntry, walk, i);
        Assoc(q, EncMany(EncEntry, walk[..i]), EncEntry(walk[i]));
        Assoc(Payload(), EncString(walk[i].key), EncString(walk[i].val));
        PackString(walk[i].key);
        PackString(walk[i].val);
      }
      assert walk[..|walk|] == walk;
      Assoc(p, [KWARGS], EncInt(|walk|) + EncMany(EncEntry, walk));
      Assoc(p + [KWARGS], EncInt(|walk|), EncMany(EncEntry, walk));
    }

    /** send: the trailer, the header in its place, and the whole message in as many calls as the socket likes. */
    method Send() returns (ghost pieces: seq<seq<byte>>)
      requires Valid()
      modifies `message, `size, message, sock`outbox
      ensures Flatten(pieces) == Frame(old(Payload())) && sock.outbox == old(sock.outbox) + pieces
    {
      ghost var payload := Payload();
      Pack(BigEndian(4, TRAILER_WORD));
      CopyIn(message, 0, BigEndian(4, HEADER_WORD) + BigEndian(4, RPC_VERSION) + BigEndian(4, size));
      assert message[..size] == message[..HEADER_LENGTH] + message[HEADER_LENGTH..size];
      Assoc(FrameHeader(size), payload, FrameTrailer());
      pieces := SendAll(sock, message, size);
    }
  }

  lemma EncManyEmpty<T>(enc: T -> seq<byte>)
    ensures EncMany(enc, []) == []
  {
  }

  lemma {:induction false} EncManyMore<T>(enc: T -> seq<byte>, xs: seq<T>, i: nat)
    requires i < |xs|
    ensures EncMany(enc, xs[..i + 1]) == EncMany(enc, xs[..i]) + enc(xs[i])
  {
    if i == 0 {
      assert xs[..1] == [xs[0]];
      assert EncMany(enc, [xs[0]]) == enc(xs[0]) + EncMany(enc, []);
    } else {
      EncManyMore(enc, xs[1..], i - 1);
      assert xs[1..][..i - 1] == xs[..i][1..] && xs[1..][..i] == xs[..i + 1][1..];
      Assoc(enc(xs[0]), EncMany(enc, xs[..i][1..]), enc(xs[i]));
    }
  }
}
