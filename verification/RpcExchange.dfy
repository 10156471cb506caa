/** A whole RPC exchange: values packed into a frame on one side, and what the other side unpacks. */
module RpcExchange {
  import opened Bytes
  import opened Sequences
  import opened RpcCodec
  import opened RpcValues
  import opened RpcMessage
  import opened RpcUnpacker

  lemma FirstByte(c: Codec, v: Value)
    ensures Tagged(v.Tag(), c.Encode(v))
  {
    hide EncMany, EncEntry, SignedBytes;
  }

  /** What recv and the unpacks after it give for a message of the values vs. */
  ghost predicate Arrives(c: Codec, vs: seq<Value>, payload: seq<byte>)
    requires vs != [] && payload != []
  {
    match vs[0]
    case VoidVal =>
      && Open(payload).outcome == Ready
      && DecodeAll(c, Tags(vs[1..]), Open(payload).left) == Got(SeenAll(c, vs[1..]), [])
    case ExceptionVal(what) => Open(payload).outcome == RemoteError(what)
    case _ =>
      && Open(payload).outcome == Ready
      && DecodeAll(c, Tags(vs), Open(payload).left) == Got(SeenAll(c, vs), [])
  }

  /** Between two current peers every message of values arrives whole, whatever follows it: all its values,
      of which a leading void is consumed at once, or the exception it reports; and nothing of it is left over. */
  lemma MessageTravels(c: Codec, vs: seq<Value>, rest: seq<byte>)
    requires c.Valid() && c.version == RPC_VERSION && AllValid(vs) && vs != []
    requires FrameLength(EncodeAll(c, vs)) < 0x1_0000_0000
    ensures var payload := EncodeAll(c, vs);
            && Complete(Frame(payload) + rest) && payload != []
            && Parse(Frame(payload) + rest) == Message(c.version, payload, rest)
            && Arrives(c, vs, payload)
  {
    hide Frame, Parse, Complete, Codec.Valid, Codec.Encode, Codec.Decode, Codec.Seen, Value.Valid, DecString, EncString;
    var payload, more := EncodeAll(c, vs), EncodeAll(c, vs[1..]);
    FirstByte(c, vs[0]);
    FrameParses(payload, rest);
    DoneExactly(c, vs, |vs|);
    DoneExactly(c, vs[1..], |vs[1..]|);
    assert vs[..|vs|] == vs && vs[1..][..|vs[1..]|] == vs[1..];
    match vs[0]
    case VoidVal => VoidFront(c, more);
    case ExceptionVal(what) => ExceptionFront(c, vs[0], more);
    case _ =>
  }

  lemma VoidFront(c: Codec, more: seq<byte>)
    ensures (c.Encode(VoidVal) + more)[1..] == more
  {
  }

  lemma ExceptionFront(c: Codec, v: Value, more: seq<byte>)
    requires v.ExceptionVal? && v.Valid()
    ensures DecString((c.Encode(v) + more)[1..]) == Got(v.what, more)
  {
    hide DecString, EncString;
    Tail(EXCEPTION, EncString(v.what), more);
    StringTravels(v.what, more);
  }
}
