/** RPC messages on a byte stream: the packer's buffer and send, the unpacker's recv
    (common/SoapyRPCPacker.cpp and common/SoapyRPCUnpacker.cpp). */
module RpcMessage {
  import opened Arithmetic
  import opened Bytes
  import opened Sequences
  import opened Sockets
  import opened FloatTransport
  import opened RpcCodec
  import opened RpcValues

  const HEADER_WORD: nat := 0x53525043
  const TRAILER_WORD: nat := 0x43505253
  const HEADER_LENGTH: nat := 12
  const TRAILER_LENGTH: nat := 4

  // ---------- frames ----------

  function FrameHeader(length: nat): (r: seq<byte>)
    ensures |r| == HEADER_LENGTH
  {
    BigEndian(4, HEADER_WORD) + BigEndian(4, RPC_VERSION) + BigEndian(4, length)
  }

  function FrameTrailer(): (r: seq<byte>)
    ensures |r| == TRAILER_LENGTH
  {
    BigEndian(4, TRAILER_WORD)
  }

  function FrameLength(payload: seq<byte>): nat {
    HEADER_LENGTH + |payload| + TRAILER_LENGTH
  }

  /** A message as it is sent: the length it announces is its own, in 32 bits. */
  function Frame(payload: seq<byte>): (r: seq<byte>)
    ensures |r| == FrameLength(payload)
  {
    FrameHeader(FrameLength(payload)) + payload + FrameTrailer()
  }

  /** What recv makes of the bytes on the stream: a message with the bytes behind it, or an exception. */
  datatype Parsed = Message(version: nat, payload: seq<byte>, rest: seq<byte>) | BadWord | BadLength | BadTrailer

  function Word(s: seq<byte>, at: nat): (w: nat)
    requires at + 4 <= |s|
    ensures w < 0x1_0000_0000
  {
    PowersOf256();
    FromBigEndian(s[at..at + 4])
  }

  /** A header has arrived, and so has the message if the header is in order. */
  predicate Complete(s: seq<byte>) {
    && HEADER_LENGTH <= |s|
    && (Word(s, 0) == HEADER_WORD && Word(s, 8) > HEADER_LENGTH + TRAILER_LENGTH ==> Word(s, 8) <= |s|)
  }

  function Parse(s: seq<byte>): (p: Parsed)
    requires Complete(s)
    ensures p.Message? ==> p.payload != []
  {
    var length := Word(s, 8);
    if Word(s, 0) != HEADER_WORD then BadWord
    else if length <= HEADER_LENGTH + TRAILER_LENGTH then BadLength
    else if Word(s, length - TRAILER_LENGTH) != TRAILER_WORD then BadTrailer
    else Message(Word(s, 4), s[HEADER_LENGTH..length - TRAILER_LENGTH], s[length..])
  }

  lemma WordOf(a: seq<byte>, w: nat, b: seq<byte>)
    requires w < 0x1_0000_0000
    ensures Word(a + BigEndian(4, w) + b, |a|) == w
  {
    PowersOf256();
    BigEndianRoundTrip(4, w);
    assert (a + BigEndian(4, w) + b)[|a|..|a| + 4] == BigEndian(4, w);
  }

  lemma Regroup(a: seq<byte>, b: seq<byte>, c: seq<byte>, d: seq<byte>, e: seq<byte>, f: seq<byte>)
    ensures var s := (a + b + c) + d + e + f;
            && s == [] + a + (b + c + d + e + f) && s == a + b + (c + d + e + f)
            && s == (a + b) + c + (d + e + f) && s == (a + b + c + d) + e + f
            && s[|a| + |b| + |c|..|a| + |b| + |c| + |d|] == d && s[|a| + |b| + |c| + |d| + |e|..] == f
  {
  }

  /** A frame is recognised, whatever follows it, exactly when its payload is not empty. */
  lemma FrameParses(payload: seq<byte>, rest: seq<byte>)
    requires FrameLength(payload) < 0x1_0000_0000
    ensures Complete(Frame(payload) + rest)
    ensures Parse(Frame(payload) + rest) == if payload == [] then BadLength else Message(RPC_VERSION, payload, rest)
  {
    hide BigEndian, Word;
    var n := FrameLength(payload);
    var h0, h1, h2, t := BigEndian(4, HEADER_WORD), BigEndian(4, RPC_VERSION), BigEndian(4, n), FrameTrailer();
    Regroup(h0, h1, h2, payload, t, rest);
    WordOf([], HEADER_WORD, h1 + h2 + payload + t + rest);
    WordOf(h0, RPC_VERSION, h2 + payload + t + rest);
    WordOf(h0 + h1, n, payload + t + rest);
    WordOf(h0 + h1 + h2 + payload, TRAILER_WORD, rest);
  }

  /** The payloads of the first n messages on the stream. */
  function ParseMany(n: nat, s: seq<byte>): Decoded<seq<seq<byte>>> {
    if n == 0 then Got([], s)
    else if !Complete(s) || !Parse(s).Message? then Refused
    else
      var p := Parse(s);
      var ps := ParseMany(n - 1, p.rest);
      if ps.Refused? then Refused else Got([p.payload] + ps.value, ps.rest)
  }

  function Frames(payloads: seq<seq<byte>>): (r: seq<seq<byte>>)
    ensures |r| == |payloads|
  {
    seq(|payloads|, i requires 0 <= i < |payloads| => Frame(payloads[i]))
  }

  /** A stream of frames splits back into the same payloads exactly when none of them is empty. */
  lemma {:induction false} FramesSplit(payloads: seq<seq<byte>>, rest: seq<byte>)
    requires forall i :: 0 <= i < |payloads| ==> FrameLength(payloads[i]) < 0x1_0000_0000
    ensures if [] in payloads then ParseMany(|payloads|, Flatten(Frames(payloads)) + rest) == Refused
            else ParseMany(|payloads|, Flatten(Frames(payloads)) + rest) == Got(payloads, rest)
  {
    hide Frame, Complete, Parse;
    if payloads == [] {
      assert [] + rest == rest;
    } else {
      var more := payloads[1..];
      FramesSplit(more, rest);
      assert Frames(payloads)[1..] == Frames(more);
      Assoc(Frame(payloads[0]), Flatten(Frames(more)), rest);
      FrameParses(payloads[0], Flatten(Frames(more)) + rest);
      assert [] in payloads <==> payloads[0] == [] || [] in more;
      assert payloads == [payloads[0]] + more;
    }
  }
}
