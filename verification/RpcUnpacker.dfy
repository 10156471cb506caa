/** The unpacker: receives one frame and unpacks its values (common/SoapyRPCUnpacker.cpp). */
module RpcUnpacker {
  import opened Arithmetic
  import opened Bytes
  import opened Sequences
  import opened Sockets
  import opened FloatTransport
  import opened RpcCodec
  import opened RpcValues
  import opened RpcMessage

  /** How recv ends: ready to unpack, or with an exception; RemoteError is one the peer sent. */
  datatype Outcome = Ready | HeaderWord | HeaderLength | TrailerWord | RemoteError(what: Text) | TypeCheck

  /** What a payload comes to before the first unpack: a leading void is consumed, an exception is raised. */
  datatype Opening = Opening(outcome: Outcome, left: seq<byte>)

  function Open(payload: seq<byte>): Opening
    requires payload != []
  {
    if payload[0] == VOID then Opening(Ready, payload[1..])
    else if payload[0] == EXCEPTION then
      var what := DecString(payload[1..]);
      if what.Refused? then Opening(TypeCheck, []) else Opening(RemoteError(what.value), what.rest)
    else Opening(Ready, payload)
  }

  class Unpacker {
    const sock: Socket
    var message: array<byte>
    var offset: nat
    var capacity: nat
    var remoteVersion: nat

    constructor (sock: Socket)
      ensures this.sock == sock && offset == 0 && capacity == 0 && remoteVersion == RPC_VERSION
    {
      this.sock := sock;
      message := new byte[0];
      offset, capacity, remoteVersion := 0, 0, RPC_VERSION;
    }

    ghost predicate Valid()
      reads this
    {
      offset + TRAILER_LENGTH <= capacity == message.Length
    }

    /** The payload bytes that were not unpacked yet. */
    ghost function Left(): seq<byte>
      requires Valid()
      reads this, message
    {
      message[offset..capacity - TRAILER_LENGTH]
    }

    /** done. */
    predicate Done()
      requires Valid()
      reads this, message
      ensures Done() <==> Left() == []
    {
      offset + TRAILER_LENGTH == capacity
    }

    /** The header and then the rest of one frame, in as many calls as the socket likes. */
    method RecvFrame() returns (outcome: Outcome)
      requires offset == 0 && !sock.datagram && NonEmptyPieces(sock.inbox) && Complete(Flatten(sock.inbox))
      modifies `message, `capacity, `remoteVersion, sock`inbox
      ensures var p := Parse(Flatten(old(sock.inbox)));
              match p
              case BadWord => outcome == HeaderWord
              case BadLength => outcome == HeaderLength
              case BadTrailer => outcome == TrailerWord
              case Message(version, payload, rest) =>
                && outcome == Ready && NonEmptyPieces(sock.inbox) && Flatten(sock.inbox) == rest
                && Valid() && Left() == payload && remoteVersion == version
    {
      hide Flatten, FromBigEndian;
      ghost var s := Flatten(sock.inbox);
      var header := new byte[HEADER_LENGTH];
      RecvUpTo(sock, header, 0, HEADER_LENGTH, HEADER_LENGTH);
      ghost var after := Flatten(sock.inbox);
      SameWords(header[..], s, after);
      if Word(header[..], 0) != HEADER_WORD {
        return HeaderWord;
      }
      remoteVersion := Word(header[..], 4);
      var length := Word(header[..], 8);
      if length <= HEADER_LENGTH + TRAILER_LENGTH {
        return HeaderLength;
      }
      capacity := length - HEADER_LENGTH;
      message := new byte[capacity];
      RecvUpTo(sock, message, 0, capacity, BUFFMAX);
      MessageParts(s, header[..], message[..], Flatten(sock.inbox));
      if Word(message[..], capacity - TRAILER_LENGTH) != TRAILER_WORD {
        return TrailerWord;
      }
      outcome := Ready;
    }

    /** recv: one frame, with a leading void consumed and an exception raised. */
    method Recv() returns (outcome: Outcome)
      requires offset == 0 && !sock.datagram && NonEmptyPieces(sock.inbox) && Complete(Flatten(sock.inbox))
      modifies this, sock`inbox
      ensures var p := Parse(Flatten(old(sock.inbox)));
              match p
              case BadWord => outcome == HeaderWord
              case BadLength => outcome == HeaderLength
              case BadTrailer => outcome == TrailerWord
              case Message(version, payload, rest) =>
                && outcome == Open(payload).outcome && Flatten(sock.inbox) == rest && NonEmptyPieces(sock.inbox)
                && remoteVersion == version && Valid() && (outcome == Ready ==> Left() == Open(payload).left)
    {
      hide Parse, Complete, Flatten, DecString;
      outcome := RecvFrame();
      if outcome != Ready {
        return;
      }
      if message[offset] == VOID {
        var ok := Expect(VOID);
      } else if message[offset] == EXCEPTION {
        var ok := Expect(EXCEPTION);
        var what;
        ok, what := UnpackString();
        outcome := if ok then RemoteError(what) else TypeCheck;
      }
    }

    /** Copies length bytes out, unless that would consume more than the payload. */
    method Unpack(length: nat) returns (ok: bool, buff: seq<byte>)
      requires Valid()
      modifies `offset
      ensures Valid() && ok == (length <= |old(Left())|)
      ensures if ok then buff == old(Left())[..length] && Left() == old(Left())[length..] else Left() == old(Left())
    {
      if offset + length > capacity - TRAILER_LENGTH {
        return false, [];
      }
      buff := message[offset..offset + length];
      offset := offset + length;
      ok := true;
    }

    /** The type check in front of every value. */
    method Expect(tag: byte) returns (ok: bool)
      requires Valid()
      modifies `offset
      ensures Valid() && ok == Tagged(tag, old(Left()))
      ensures ok ==> Left() == old(Left())[1..]
    {
      var word;
      ok, word := Unpack(1);
      ok := ok && word[0] == tag;
    }

    method UnpackInt() returns (ok: bool, value: int)
      requires Valid()
      modifies `offset
      ensures Valid()
      ensures var d := DecInt(old(Left())); ok == d.Got? && (ok ==> value == d.value && Left() == d.rest)
    {
      ghost var s := Left();
      value := 0;
      ok := Expect(INT32);
      if ok {
        var buff;
        ok, buff := Unpack(4);
        if ok {
          assert buff == s[1..][..4] == s[1..5] && s[1..][4..] == s[5..];
          value := FromSignedBytes(buff);
        }
      }
    }

    method UnpackLong() returns (ok: bool, value: int)
      requires Valid()
      modifies `offset
      ensures Valid()
      ensures var d := DecLong(old(Left())); ok == d.Got? && (ok ==> value == d.value && Left() == d.rest)
    {
      ghost var s := Left();
      value := 0;
      ok := Expect(INT64);
      if ok {
        var buff;
        ok, buff := Unpack(8);
        if ok {
          assert buff == s[1..][..8] == s[1..9] && s[1..][8..] == s[9..];
          value := FromSignedBytes(buff);
        }
      }
    }

    method UnpackDouble() returns (ok: bool, value: real)
      requires Valid()
      modifies `offset
      ensures Valid()
      ensures var d := DecDouble(old(Left())); ok == d.Got? && (ok ==> value == d.value && Left() == d.rest)
    {
      hide DecInt, DecLong, Ldexp;
      value := 0.0;
      var exp, man := 0, 0;
      ok := Expect(FLOAT64);
      if ok {
        ok, exp := UnpackInt();
      }
      if ok {
        ok, man := UnpackLong();
      }
      if ok {
        value := Ldexp(man, exp);
      }
    }

    method UnpackString() returns (ok: bool, value: Text)
      requires Valid()
      modifies `offset
      ensures Valid()
      ensures var d := DecString(old(Left())); ok == d.Got? && (ok ==> value == d.value && Left() == d.rest)
    {
      hide DecInt;
      value := [];
      var size := 0;
      ok := Expect(STRING);
      if ok {
        ok, size := UnpackInt();
      }
      if ok {
        ok := size >= 0;
      }
      if ok {
        ok, value := Unpack(size);
      }
    }

    method UnpackRange() returns (ok: bool, value: Range)
      requires Valid()
      modifies `offset
      ensures Valid()
      ensures var d := DecRange(remoteVersion, old(Left()));
              ok == d.Got? && (ok ==> value == d.value && Left() == d.rest)
    {
      hide DecDouble;
      var minimum, maximum, step := 0.0, 0.0, 0.0;
      ok := Expect(RANGE);
      if ok {
        ok, minimum := UnpackDouble();
      }
      if ok {
        ok, maximum := UnpackDouble();
      }
      if ok && remoteVersion >= RPC_VERSION {
        ok, step := UnpackDouble();
      }
      value := Range(minimum, maximum, step);
    }

    method UnpackRangeList() returns (ok: bool, value: seq<Range>)
      requires Valid()
      modifies `offset
      ensures Valid()
      ensures var d := DecList(RANGE_LIST, RangeDecoder(remoteVersion), old(Left()));
              ok == d.Got? && (ok ==> value == d.value && Left() == d.rest)
    {
      hide DecInt, DecRange, DecMany;
      value := [];
      var size := 0;
      ok := Expect(RANGE_LIST);
      if ok {
        ok, size := UnpackInt();
      }
      if ok {
        ok := size >= 0;
      }
      if ok {
        ghost var dec, s := RangeDecoder(remoteVersion), Left();
        DecManyStart(dec, size, s);
        while ok && |value| < size
          invariant Valid() && |value| <= size
          invariant DecMany(dec, size, s) == if ok then Joined(value, DecMany(dec, size - |value|, Left())) else Refused
        {
          DecManyStep(dec, size - |value|, Left(), value);
          var x;
          ok, x := UnpackRange();
          if ok {
            value := value + [x];
          }
        }
        DecManyEnd(dec, Left(), value);
      }
    }

    method UnpackKwargs() returns (ok: bool, value: Kwargs)
      requires Valid()
      modifies `offset
      ensures Valid()
      ensures var d := DecKwargs(old(Left())); ok == d.Got? && (ok ==> value == d.value && Left() == d.rest)
    {
      hide DecInt, DecString, DecMany, Joined;
      value := map[];
      var size := 0;
      ok := Expect(KWARGS);
      if ok {
        ok, size := UnpackInt();
      }
      if ok {
        ok := size >= 0;
      }
      if ok {
        ghost var s, entries := Left(), [];
        DecManyStart(DecEntry, size, s);
        var i := 0;
        while ok && i < size
          invariant Valid() && i <= size && value == MapOf(entries) && |entries| == i
          invariant DecMany(DecEntry, size, s)
                 == if ok then Joined(entries, DecMany(DecEntry, size - i, Left())) else Refused
        {
          DecManyStep(DecEntry, size - i, Left(), entries);
          var key, val := [], [];
          ok, key := UnpackString();
          if ok {
            ok, val := UnpackString();
          }
          if ok {
            value := value[key := val];
            entries := entries + [Entry(key, val)];
            assert entries[..i] + [Entry(key, val)] == entries;
            i := i + 1;
          }
        }
        DecManyEnd(DecEntry, Left(), entries);
      }
    }
  }

  lemma SameWords(header: seq<byte>, s: seq<byte>, after: seq<byte>)
    requires |header| == HEADER_LENGTH && s == header[0..HEADER_LENGTH] + after
    ensures Word(header, 0) == Word(s, 0) && Word(header, 4) == Word(s, 4) && Word(header, 8) == Word(s, 8)
  {
    assert header[0..4] == s[0..4] && header[4..8] == s[4..8] && header[8..12] == s[8..12];
  }

  /** The header and the message read behind it are the front of the stream. */
  lemma MessageParts(s: seq<byte>, header: seq<byte>, m: seq<byte>, rest: seq<byte>)
    requires |header| == HEADER_LENGTH && |m| >= TRAILER_LENGTH
    requires s == header[0..HEADER_LENGTH] + (m[0..|m|] + rest)
    ensures var n := HEADER_LENGTH + |m|;
            && n <= |s| && s[HEADER_LENGTH..n - TRAILER_LENGTH] == m[..|m| - TRAILER_LENGTH] && s[n..] == rest
            && Word(s, n - TRAILER_LENGTH) == Word(m, |m| - TRAILER_LENGTH)
  {
    var n := HEADER_LENGTH + |m|;
    assert s[n - 4..n] == m[|m| - 4..|m|];
  }

  /** A decoded list behind values decoded before it. */
  function Joined<T>(front: seq<T>, d: Decoded<seq<T>>): Decoded<seq<T>> {
    if d.Refused? then Refused else Got(front + d.value, d.rest)
  }

  lemma DecManyStart<U>(dec: seq<byte> -> Decoded<U>, n: nat, s: seq<byte>)
    ensures Joined([], DecMany(dec, n, s)) == DecMany(dec, n, s)
  {
    if DecMany(dec, n, s).Got? {
      assert [] + DecMany(dec, n, s).value == DecMany(dec, n, s).value;
    }
  }

  lemma DecManyStep<U>(dec: seq<byte> -> Decoded<U>, n: nat, s: seq<byte>, front: seq<U>)
    requires n > 0
    ensures Joined(front, DecMany(dec, n, s)) ==
              if dec(s).Refused? then Refused else Joined(front + [dec(s).value], DecMany(dec, n - 1, dec(s).rest))
  {
    if dec(s).Got? && DecMany(dec, n - 1, dec(s).rest).Got? {
      Assoc(front, [dec(s).value], DecMany(dec, n - 1, dec(s).rest).value);
    }
  }

  lemma DecManyEnd<U>(dec: seq<byte> -> Decoded<U>, s: seq<byte>, front: seq<U>)
    ensures Joined(front, DecMany(dec, 0, s)) == Got(front, s)
  {
    assert front + [] == front;
  }
}
