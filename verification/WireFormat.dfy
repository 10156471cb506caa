/** What the encodings are on the wire, byte by byte. */
module WireFormat {
  import Arithmetic
  import opened Bytes
  import opened FloatTransport
  import opened StreamFlags
  import opened StreamEndpoint
  import Codec = RpcCodec
  import Values = RpcValues
  import Message = RpcMessage

  /** Network order: the most significant byte comes first. */
  lemma {:induction false} ByteAt(n: nat, v: nat, i: nat)
    requires i < n
    ensures BigEndian(n, v)[i] as int == (v / Pow256(n - 1 - i)) % 256
  {
    if i < n - 1 {
      ByteAt(n - 1, v / 256, i);
      DivideTwice(v, Pow256(n - 2 - i));
    }
  }

  lemma DivideTwice(v: nat, p: nat)
    requires p > 0
    ensures v / 256 / p == v / (256 * p)
  {
    var q, r := v / 256 / p, v / 256 % p;
    assert v == 256 * (v / 256) + v % 256 && v / 256 == p * q + r;
    assert 256 * (p * q + r) == (256 * p) * q + 256 * r;
    Arithmetic.ModUnique(v, q, 256 * r + v % 256, 256 * p);
  }

  /** The four bytes of a word. */
  lemma FourBytes(v: nat)
    requires v < 0x1_0000_0000
    ensures BigEndian(4, v) == [(v / 0x100_0000) as byte, (v / 0x1_0000 % 256) as byte, (v / 0x100 % 256) as byte,
                                (v % 256) as byte]
  {
    assert Pow256(0) == 1 && Pow256(1) == 0x100 && Pow256(2) == 0x1_0000 && Pow256(3) == 0x100_0000;
    ByteAt(4, v, 0);
    ByteAt(4, v, 1);
    ByteAt(4, v, 2);
    ByteAt(4, v, 3);
  }

  /** StreamDatagramHeader: where its fields are. */
  lemma HeaderFields(h: Header)
    requires h.InRange()
    ensures var s := Encode(h);
            && s[0..4] == BigEndian(4, h.bytes) && s[4..8] == BigEndian(4, h.sequence)
            && s[8..12] == SignedBytes(4, h.elems) && s[12..16] == BigEndian(4, h.flags.Word())
            && s[16..24] == SignedBytes(8, h.time)
  {
    FieldsOfEncode(BigEndian(4, h.bytes), BigEndian(4, h.sequence), SignedBytes(4, h.elems),
                   BigEndian(4, h.flags.Word()), SignedBytes(8, h.time), []);
    assert Encode(h) == Encode(h) + [];
  }

  /** The type that every value is announced with. */
  lemma TypeTags(c: Values.Codec, v: Values.Value)
    ensures c.Encode(v) != []
    ensures c.Encode(v)[0] as int ==
              match v
              case CharVal(_) => 0
              case BoolVal(_) => 1
              case IntVal(_) => 2
              case LongVal(_) => 3
              case DoubleVal(_) => 4
              case ComplexVal(_) => 5
              case StringVal(_) => 6
              case RangeVal(_) => 7
              case RangeListVal(_) => 8
              case StringListVal(_) => 9
              case DoubleListVal(_) => 10
              case KwargsVal(_) => 11
              case KwargsListVal(_) => 12
              case ExceptionVal(_) => 13
              case VoidVal => 14
              case CallVal(_) => 15
              case SizeListVal(_) => 16
              case ArgInfoVal(_) => 17
              case ArgInfoListVal(_) => 18
  {
  }

  /** An int, negative or not, in two's complement. */
  lemma IntOnTheWire()
    ensures Codec.EncInt(0x01020304) == [2, 1, 2, 3, 4]
    ensures Codec.EncInt(-2) == [2, 255, 255, 255, 254]
  {
    PowersOf256();
    FourBytes(0x01020304);
    FourBytes(0xffff_fffe);
    assert (-2) % Pow256(4) == 0xffff_fffe;
  }

  /** The smaller values, and what is in front of an exception and a call. */
  lemma SmallValuesOnTheWire(c: Values.Codec, ch: byte, what: Codec.Text, call: int)
    ensures c.Encode(Values.CharVal(ch)) == [0, ch]
    ensures c.Encode(Values.BoolVal(true)) == [1, 1] && c.Encode(Values.BoolVal(false)) == [1, 0]
    ensures c.Encode(Values.VoidVal) == [14]
    ensures c.Encode(Values.ExceptionVal(what)) == [13] + Codec.EncString(what)
    ensures c.Encode(Values.CallVal(call)) == [15] + Codec.EncInt(call)
  {
  }

  /** A string has its length in front, as an int. */
  lemma StringOnTheWire()
    ensures Codec.EncString([104, 105]) == [6, 2, 0, 0, 0, 2, 104, 105]
  {
    PowersOf256();
    FourBytes(2);
  }

  lemma One()
    ensures Exponent(1.0) == 1 && Mantissa(1.0) == 0x10_0000_0000_0000
  {
    assert FrexpPositive(0.5) == Split(0.5, 0);
    assert Frexp(1.0) == Split(0.5, 1);
    Pow2Of53();
    hide Pow2;
    assert Product(0.5, Pow2(53)) == 0x10_0000_0000_0000 as real;
  }

  /** The low k bytes of a number come behind the others. */
  lemma {:induction false} BytesSplit(n: nat, k: nat, high: nat, low: nat, v: nat)
    requires low < Pow256(k) && v == high * Pow256(k) + low
    ensures BigEndian(n + k, v) == BigEndian(n, high) + BigEndian(k, low)
  {
    if k == 0 {
      assert Pow256(0) == 1;
    } else {
      var p := Pow256(k - 1);
      assert Pow256(k) == 256 * p;
      LowByte(high, p, low, v);
      BytesSplit(n, k - 1, high, low / 256, v / 256);
    }
  }

  lemma LowByte(high: nat, p: nat, low: nat, v: nat)
    requires low < 256 * p && v == high * (256 * p) + low
    ensures low / 256 < p && v / 256 == high * p + low / 256 && v % 256 == low % 256
  {
    assert high * (256 * p) == 256 * (high * p);
    Arithmetic.ModUnique(v, high * p + low / 256, low % 256, 256);
  }

  /** 1 is 2^52 times 2^(1-53): the exponent comes first, as an int, then the mantissa, as a long. */
  lemma OneOnTheWire()
    ensures Codec.EncDouble(1.0) == ONE
  {
    hide Exponent, Mantissa, BigEndian, Pow256;
    One();
    PowersOf256();
    FourBytes(1);
    BytesSplit(4, 4, 0x10_0000, 0, 0x10_0000_0000_0000);
    FourBytes(0x10_0000);
    FourBytes(0);
    assert Codec.EncInt(1) == [2, 0, 0, 0, 1];
    assert Codec.EncLong(0x10_0000_0000_0000) == [3, 0, 16, 0, 0, 0, 0, 0, 0];
  }

  const ONE: seq<byte> := [4, 2, 0, 0, 0, 1, 3, 0, 16, 0, 0, 0, 0, 0, 0]
  const ZERO: seq<byte> := [4, 2, 0, 0, 0, 0, 3, 0, 0, 0, 0, 0, 0, 0, 0]

  lemma ZeroOnTheWire()
    ensures Codec.EncDouble(0.0) == ZERO
  {
    PowersOf256();
    hide BigEndian, Pow256;
    assert Exponent(0.0) == 0 && Mantissa(0.0) == 0;
    FourBytes(0);
    BytesSplit(4, 4, 0, 0, 0);
    assert Codec.EncInt(0) == [2, 0, 0, 0, 0];
    assert Codec.EncLong(0) == [3, 0, 0, 0, 0, 0, 0, 0, 0];
  }

  /** The real part comes before the imaginary one. */
  lemma ComplexOnTheWire()
    ensures Codec.EncComplex(Codec.Complex(1.0, 0.0)) == [5] + ONE + ZERO
  {
    OneOnTheWire();
    ZeroOnTheWire();
  }

  /** The minimum comes first, then the maximum and, for a current peer, the step. */
  lemma RangeOnTheWire()
    ensures Codec.EncRange(0x400, Codec.Range(0.0, 1.0, 0.0)) == [7] + ZERO + ONE + ZERO
    ensures Codec.EncRange(0x400, Codec.Range(1.0, 0.0, 0.0)) == [7] + ONE + ZERO + ZERO
    ensures Codec.EncRange(0x3ff, Codec.Range(0.0, 1.0, 1.0)) == [7] + ZERO + ONE
  {
    hide Codec.EncDouble;
    OneOnTheWire();
    ZeroOnTheWire();
  }

  lemma LetterOnTheWire(a: byte)
    ensures Codec.EncString([a]) == [6, 2, 0, 0, 0, 1, a]
  {
    PowersOf256();
    FourBytes(1);
  }

  /** A dictionary's keys come before their values, a list's length before its elements. */
  lemma EntriesOnTheWire(k: byte, v: byte)
    ensures Codec.EncList(11, Codec.EncEntry, [Codec.Entry([k], [v])])
         == [11] + [2, 0, 0, 0, 1] + [6, 2, 0, 0, 0, 1, k] + [6, 2, 0, 0, 0, 1, v]
  {
    PowersOf256();
    FourBytes(1);
    LetterOnTheWire(k);
    LetterOnTheWire(v);
    hide BigEndian, Pow256, Codec.EncString;
    assert Codec.EncInt(1) == [2, 0, 0, 0, 1];
    var es := [Codec.Entry([k], [v])];
    assert Codec.EncMany(Codec.EncEntry, es[1..]) == [];
  }

  lemma Several<T>(enc: T -> seq<byte>, x: T, xs: seq<T>)
    ensures Codec.EncMany(enc, [x] + xs) == enc(x) + Codec.EncMany(enc, xs)
    ensures Codec.EncMany(enc, []) == []
  {
    assert ([x] + xs)[1..] == xs;
  }

  /** The order of an ArgInfo's texts. */
  lemma ArgInfoOnTheWire(a: Values.ArgInfo)
    requires a.key == [1] && a.value == [2] && a.name == [3] && a.description == [4] && a.units == [5]
    ensures Codec.EncMany(Codec.EncString, a.Texts())
         == [6, 2, 0, 0, 0, 1, 1] + ([6, 2, 0, 0, 0, 1, 2] + ([6, 2, 0, 0, 0, 1, 3]
            + ([6, 2, 0, 0, 0, 1, 4] + ([6, 2, 0, 0, 0, 1, 5] + []))))
  {
    hide Codec.EncString, Codec.EncMany;
    LetterOnTheWire(1);
    LetterOnTheWire(2);
    LetterOnTheWire(3);
    LetterOnTheWire(4);
    LetterOnTheWire(5);
    Several(Codec.EncString, [1], [[2], [3], [4], [5]]);
    Several(Codec.EncString, [2], [[3], [4], [5]]);
    Several(Codec.EncString, [3], [[4], [5]]);
    Several(Codec.EncString, [4], [[5]]);
    Several(Codec.EncString, [5], []);
    assert a.Texts() == [[1]] + [[2], [3], [4], [5]] && [[2]] + [[3], [4], [5]] == [[2], [3], [4], [5]];
    assert [[3]] + [[4], [5]] == [[3], [4], [5]] && [[4]] + [[5]] == [[4], [5]] && [[5]] + [] == [[5]];
  }

  /** The smallest message: a void. */
  lemma FrameOnTheWire()
    ensures Message.Frame([14])
         == [0x53, 0x52, 0x50, 0x43] + [0, 0, 4, 0] + [0, 0, 0, 17] + [14] + [0x43, 0x50, 0x52, 0x53]
  {
    hide BigEndian;
    FourBytes(Message.HEADER_WORD);
    FourBytes(Message.TRAILER_WORD);
    FourBytes(Codec.RPC_VERSION);
    FourBytes(17);
  }

  lemma WordBytes(s: seq<byte>, at: nat, w: nat)
    requires at + 4 <= |s| && w < 0x1_0000_0000
    ensures Message.Word(s, at) == w <==> s[at..at + 4] == BigEndian(4, w)
  {
    PowersOf256();
    BigEndianRoundTrip(4, w);
    BytesOfWord(s[at..at + 4]);
  }

  lemma BytesOfWord(s: seq<byte>)
    requires |s| == 4
    ensures BigEndian(4, FromBigEndian(s)) == s
  {
    OneByteMore(s[..3], s[3]);
    OneByteMore(s[..2], s[2]);
    OneByteMore(s[..1], s[1]);
    OneByteMore(s[..0], s[0]);
    assert s[..3] + [s[3]] == s && s[..2] + [s[2]] == s[..3] && s[..1] + [s[1]] == s[..2] && s[..0] + [s[0]] == s[..1];
    assert BigEndian(0, 0) == s[..0];
  }

  lemma OneByteMore(s: seq<byte>, b: byte)
    ensures FromBigEndian(s + [b]) / 256 == FromBigEndian(s)
    ensures BigEndian(|s| + 1, FromBigEndian(s + [b])) == BigEndian(|s|, FromBigEndian(s)) + [b]
  {
    assert (s + [b])[..|s|] == s;
    Arithmetic.ModUnique(FromBigEndian(s + [b]), FromBigEndian(s), b as int, 256);
  }

  /** A message is accepted exactly with the letters SRPC in front, more than sixteen bytes, and CPRS at the end. */
  lemma AcceptedExactly(s: seq<byte>)
    requires Message.Complete(s)
    ensures var length := Message.Word(s, 8);
            Message.Parse(s).Message? <==>
              && s[..4] == [0x53, 0x52, 0x50, 0x43] && 16 < length <= |s|
              && s[length - 4..length] == [0x43, 0x50, 0x52, 0x53]
  {
    hide BigEndian, FromBigEndian, Pow256, Message.Word;
    FourBytes(Message.HEADER_WORD);
    FourBytes(Message.TRAILER_WORD);
    WordBytes(s, 0, Message.HEADER_WORD);
    var length := Message.Word(s, 8);
    if 16 < length <= |s| {
      WordBytes(s, length - 4, Message.TRAILER_WORD);
    }
  }

  /** Nothing is read as a value of another type, and none out of an empty rest. */
  lemma OtherTypesRefused(c: Values.Codec, tag: byte, s: seq<byte>)
    requires s == [] || s[0] != tag
    ensures c.Decode(tag, s).Refused?
  {
  }
}
