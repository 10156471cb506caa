/** The packed 12-bit sample conversions of client/ClientStreamData.cpp. A complex sample is two 16-bit
    words (I, Q) on the client's side and three octets on the wire. */
module ClientConvert {
  import opened Bytes

  type octet = bv8

  /** The bits of a number, as an octet. */
  function Bits(b: nat): (o: octet)
    requires b < 256
    ensures o as int == b
  {
    if b == 0 then 0
    else
      var high := Bits(b / 2);
      BitBelow(high);
      if b % 2 == 1 then (high << 1) | 1 else high << 1
  }

  lemma BitBelow(high: octet)
    requires high as int < 128
    ensures ((high << 1) | 1) as int == 2 * (high as int) + 1 && (high << 1) as int == 2 * (high as int)
  {
  }

  /** Wire bytes as bit patterns. */
  function Octets(s: seq<byte>): (r: seq<octet>)
    ensures |r| == |s| && forall k :: 0 <= k < |r| ==> r[k] as int == s[k] as int
  {
    seq(|s|, k requires 0 <= k < |s| => Bits(s[k] as nat))
  }

  /** Bit patterns as wire bytes. */
  function FromOctets(s: seq<octet>): (r: seq<byte>)
    ensures |r| == |s| && forall k :: 0 <= k < |r| ==> r[k] as int == s[k] as int
  {
    seq(|s|, k requires 0 <= k < |s| => s[k] as byte)
  }

  // ---------- one sample ----------

  function UnpackI(part0: octet, part1: octet): bv16 {
    ((part1 as bv16) << 12) | ((part0 as bv16) << 4)
  }

  function UnpackQ(part1: octet, part2: octet): bv16 {
    ((part2 as bv16) << 8) | ((part1 as bv16) & 0xf0)
  }

  function Pack0(i: bv16): octet {
    ((i >> 4) & 0xff) as octet
  }

  function Pack1(i: bv16, q: bv16): octet {
    ((q & 0xf0) | (i >> 12)) as octet
  }

  function Pack2(q: bv16): octet {
    (q >> 8) as octet
  }

  /** A word without its low four bits. */
  function ClearLow(w: bv16): bv16 {
    w & 0xfff0
  }

  lemma PackOfUnpack(p0: octet, p1: octet, p2: octet)
    ensures Pack0(UnpackI(p0, p1)) == p0
    ensures Pack1(UnpackI(p0, p1), UnpackQ(p1, p2)) == p1
    ensures Pack2(UnpackQ(p1, p2)) == p2
  {
  }

  lemma UnpackOfPack(i: bv16, q: bv16)
    ensures UnpackI(Pack0(i), Pack1(i, q)) == ClearLow(i)
    ensures UnpackQ(Pack1(i, q), Pack2(q)) == ClearLow(q)
  {
  }

  // ---------- the same as numbers ----------

  lemma Halves(p: octet)
    ensures p & 0xf < 16 && (p & 0xf) as int == p as int % 16
    ensures p >> 4 < 16 && (p >> 4) as int == p as int / 16
  {
  }

  lemma NibbleAndOctet(n: octet, p: octet)
    requires n < 16
    ensures (((n as bv16) << 12) | ((p as bv16) << 4)) as int == 4096 * (n as int) + 16 * (p as int)
  {
  }

  lemma OctetAndNibble(p: octet, n: octet)
    requires n < 16
    ensures (((p as bv16) << 8) | ((n as bv16) << 4)) as int == 256 * (p as int) + 16 * (n as int)
  {
  }

  /** I has the first octet and the low half of the second one, from bit 4 on. */
  lemma UnpackIValue(p0: octet, p1: octet)
    ensures UnpackI(p0, p1) as int == 16 * ((p0 as int) + 256 * ((p1 as int) % 16))
  {
    Halves(p1);
    NibbleAndOctet(p1 & 0xf, p0);
    assert UnpackI(p0, p1) == (((p1 & 0xf) as bv16) << 12) | ((p0 as bv16) << 4);
  }

  /** Q has the high half of the second octet and the third one, from bit 4 on. */
  lemma UnpackQValue(p1: octet, p2: octet)
    ensures UnpackQ(p1, p2) as int == 16 * ((p1 as int) / 16 + 16 * (p2 as int))
  {
    Halves(p1);
    OctetAndNibble(p2, p1 >> 4);
    assert UnpackQ(p1, p2) == ((p2 as bv16) << 8) | (((p1 >> 4) as bv16) << 4);
  }

  lemma ThreeParts(a: octet, b: octet, c: octet)
    requires a < 16 && c < 16
    ensures (((a as bv16) << 12) | ((b as bv16) << 4) | (c as bv16)) as int
         == 4096 * (a as int) + 16 * (b as int) + c as int
  {
  }

  lemma PartsOfWord(w: bv16)
    ensures (w >> 12) as octet < 16 && (w & 0xf) as octet < 16
    ensures w == (((w >> 12) as octet as bv16) << 12) | ((Pack0(w) as bv16) << 4) | ((w & 0xf) as octet as bv16)
  {
  }

  lemma Digits(w: int, a: int, b: int, c: int)
    requires w == 4096 * a + 16 * b + c && 0 <= b < 256 && 0 <= c < 16
    ensures w / 4096 == a && (w / 16) % 256 == b
  {
  }

  /** The first octet has bits 4 to 11 of I. */
  lemma Pack0Value(w: bv16)
    ensures Pack0(w) as int == (w as int / 16) % 256
    ensures (w >> 12) as octet < 16 && ((w >> 12) as octet) as int == w as int / 4096
  {
    PartsOfWord(w);
    ThreeParts((w >> 12) as octet, Pack0(w), (w & 0xf) as octet);
    Digits(w as int, ((w >> 12) as octet) as int, Pack0(w) as int, ((w & 0xf) as octet) as int);
  }

  lemma TwoNibbles(h: octet, l: octet)
    requires h < 16 && l < 16
    ensures ((h << 4) | l) as int == 16 * (h as int) + l as int
  {
  }

  lemma NibblesOfPack1(i: bv16, q: bv16)
    ensures Pack1(i, q) == ((Pack0(q) & 0xf) << 4) | ((i >> 12) as octet)
  {
  }

  lemma LowDigit(x: int)
    ensures x % 256 % 16 == x % 16
  {
  }

  /** The second octet has bits 12 to 15 of I below bits 4 to 7 of Q. */
  lemma Pack1Value(i: bv16, q: bv16)
    ensures Pack1(i, q) as int == i as int / 4096 + 16 * ((q as int / 16) % 16)
  {
    hide Pack0, Pack1;
    Pack0Value(i);
    Pack0Value(q);
    NibblesOfPack1(i, q);
    Halves(Pack0(q));
    TwoNibbles(Pack0(q) & 0xf, (i >> 12) as octet);
    LowDigit(q as int / 16);
  }

  /** The third octet has bits 8 to 15 of Q. */
  lemma Pack2Value(q: bv16)
    ensures Pack2(q) as int == q as int / 256
  {
    OctetsOfWord(q);
    TwoOctets(Pack2(q), (q & 0xff) as octet);
    Quotient(q as int, Pack2(q) as int, ((q & 0xff) as octet) as int);
  }

  lemma OctetsOfWord(w: bv16)
    ensures w == ((Pack2(w) as bv16) << 8) | ((w & 0xff) as octet as bv16)
  {
  }

  lemma TwoOctets(h: octet, l: octet)
    ensures (((h as bv16) << 8) | (l as bv16)) as int == 256 * (h as int) + l as int
  {
  }

  lemma Quotient(w: int, h: int, l: int)
    requires w == 256 * h + l && 0 <= l < 256
    ensures w / 256 == h
  {
  }

  /** The words t are the samples in the octets s: twelve bits each, least significant first, in the upper bits of a
      word. */
  ghost predicate HoldsSamples(s: seq<octet>, t: seq<bv16>) {
    && 2 * |s| == 3 * |t|
    && forall k :: 0 <= 3 * k && 3 * k + 2 < |s| ==>
         && t[2 * k] as int == 16 * ((s[3 * k] as int) + 256 * ((s[3 * k + 1] as int) % 16))
         && t[2 * k + 1] as int == 16 * ((s[3 * k + 1] as int) / 16 + 16 * (s[3 * k + 2] as int))
  }

  /** The octets s are the upper twelve bits of the words t. */
  ghost predicate HoldsWords(t: seq<bv16>, s: seq<octet>) {
    && 2 * |s| == 3 * |t|
    && forall k :: 0 <= 2 * k && 2 * k + 1 < |t| ==>
         && s[3 * k] as int == (t[2 * k] as int / 16) % 256
         && s[3 * k + 1] as int == t[2 * k] as int / 4096 + 16 * ((t[2 * k + 1] as int / 16) % 16)
         && s[3 * k + 2] as int == t[2 * k + 1] as int / 256
  }

  // ---------- whole buffers ----------

  /** CS12 octets to CS16 words. */
  function Unpacked(s: seq<octet>): (r: seq<bv16>)
    ensures |r| == 2 * (|s| / 3)
  {
    if |s| < 3 then [] else [UnpackI(s[0], s[1]), UnpackQ(s[1], s[2])] + Unpacked(s[3..])
  }

  /** CS16 words to CS12 octets. */
  function Packed(t: seq<bv16>): (r: seq<octet>)
    ensures |r| == 3 * (|t| / 2)
  {
    if |t| < 2 then [] else [Pack0(t[0]), Pack1(t[0], t[1]), Pack2(t[1])] + Packed(t[2..])
  }

  /** Where the words of a sample end up. */
  lemma {:induction false} UnpackedAt(s: seq<octet>, k: nat)
    requires 3 * k + 3 <= |s|
    ensures Unpacked(s)[2 * k] == UnpackI(s[3 * k], s[3 * k + 1])
    ensures Unpacked(s)[2 * k + 1] == UnpackQ(s[3 * k + 1], s[3 * k + 2])
  {
    hide UnpackI, UnpackQ;
    if k > 0 {
      UnpackedAt(s[3..], k - 1);
    }
  }

  lemma {:induction false} PackedAt(t: seq<bv16>, k: nat)
    requires 2 * k + 2 <= |t|
    ensures Packed(t)[3 * k] == Pack0(t[2 * k])
    ensures Packed(t)[3 * k + 1] == Pack1(t[2 * k], t[2 * k + 1])
    ensures Packed(t)[3 * k + 2] == Pack2(t[2 * k + 1])
  {
    hide Pack0, Pack1, Pack2;
    if k > 0 {
      PackedAt(t[2..], k - 1);
    }
  }

  /** What unpacking a buffer gives, in numbers. */
  lemma UnpackedValues(s: seq<octet>)
    requires |s| % 3 == 0
    ensures HoldsSamples(s, Unpacked(s))
  {
    hide Unpacked, UnpackI, UnpackQ;
    forall k | 0 <= 3 * k && 3 * k + 2 < |s|
      ensures Unpacked(s)[2 * k] as int == 16 * ((s[3 * k] as int) + 256 * ((s[3 * k + 1] as int) % 16))
      ensures Unpacked(s)[2 * k + 1] as int == 16 * ((s[3 * k + 1] as int) / 16 + 16 * (s[3 * k + 2] as int))
    {
      UnpackedAt(s, k);
      UnpackIValue(s[3 * k], s[3 * k + 1]);
      UnpackQValue(s[3 * k + 1], s[3 * k + 2]);
    }
  }

  lemma PackedValues(t: seq<bv16>)
    requires |t| % 2 == 0
    ensures HoldsWords(t, Packed(t))
  {
    hide Packed, Pack0, Pack1, Pack2;
    forall k | 0 <= 2 * k && 2 * k + 1 < |t|
      ensures Packed(t)[3 * k] as int == (t[2 * k] as int / 16) % 256
      ensures Packed(t)[3 * k + 1] as int == t[2 * k] as int / 4096 + 16 * ((t[2 * k + 1] as int / 16) % 16)
      ensures Packed(t)[3 * k + 2] as int == t[2 * k + 1] as int / 256
    {
      PackedAt(t, k);
      Pack0Value(t[2 * k]);
      Pack1Value(t[2 * k], t[2 * k + 1]);
      Pack2Value(t[2 * k + 1]);
    }
  }

  /** Each word without its low four bits. */
  function Cleared(t: seq<bv16>): (r: seq<bv16>)
    ensures |r| == |t|
  {
    seq(|t|, k requires 0 <= k < |t| => ClearLow(t[k]))
  }

  /** Nothing is lost from the wire format: octets to words to octets is the identity. */
  lemma {:induction false} PackedUnpacked(s: seq<octet>)
    requires |s| % 3 == 0
    ensures Packed(Unpacked(s)) == s
  {
    if s != [] {
      var t := Unpacked(s);
      PackOfUnpack(s[0], s[1], s[2]);
      PackedUnpacked(s[3..]);
      assert t[2..] == Unpacked(s[3..]);
      assert Packed(t) == [s[0], s[1], s[2]] + Packed(t[2..]);
      assert s == [s[0], s[1], s[2]] + s[3..];
    }
  }

  /** Words to octets to words clears exactly the low four bits of every I and Q. */
  lemma {:induction false} UnpackedPacked(t: seq<bv16>)
    requires |t| % 2 == 0
    ensures Unpacked(Packed(t)) == Cleared(t)
  {
    if t != [] {
      var s := Packed(t);
      UnpackOfPack(t[0], t[1]);
      UnpackedPacked(t[2..]);
      assert s[3..] == Packed(t[2..]);
      assert s[..3] == [Pack0(t[0]), Pack1(t[0], t[1]), Pack2(t[1])];
      assert Unpacked(s) == [ClearLow(t[0]), ClearLow(t[1])] + Unpacked(s[3..]);
      assert Cleared(t) == [ClearLow(t[0]), ClearLow(t[1])] + Cleared(t[2..]);
    }
  }

  /** Converting a buffer in fragments equals converting it whole. */
  lemma {:induction false} UnpackedAppend(a: seq<octet>, b: seq<octet>)
    requires |a| % 3 == 0
    ensures Unpacked(a + b) == Unpacked(a) + Unpacked(b)
  {
    if a == [] {
      assert a + b == b;
    } else {
      UnpackedAppend(a[3..], b);
      assert (a + b)[3..] == a[3..] + b;
    }
  }

  lemma {:induction false} PackedAppend(a: seq<bv16>, b: seq<bv16>)
    requires |a| % 2 == 0
    ensures Packed(a + b) == Packed(a) + Packed(b)
  {
    if a == [] {
      assert a + b == b;
    } else {
      PackedAppend(a[2..], b);
      assert (a + b)[2..] == a[2..] + b;
    }
  }

  /** The front of a packed buffer is the packed front. */
  lemma PackedFront(t: seq<bv16>, k: nat)
    requires 2 * k <= |t|
    ensures |Packed(t)| >= 3 * k && Packed(t)[..3 * k] == Packed(t[..2 * k])
  {
    PackedAppend(t[..2 * k], t[2 * k..]);
    assert t == t[..2 * k] + t[2 * k..];
  }

  // ---------- the loops ----------

  lemma UnpackedStep(s: seq<octet>, j: nat)
    requires 3 * j + 3 <= |s|
    ensures Unpacked(s[..3 * j + 3])
            == Unpacked(s[..3 * j]) + [UnpackI(s[3 * j], s[3 * j + 1]), UnpackQ(s[3 * j + 1], s[3 * j + 2])]
  {
    var last := s[3 * j..3 * j + 3];
    UnpackedAppend(s[..3 * j], last);
    assert s[..3 * j + 3] == s[..3 * j] + last;
    assert Unpacked(last) == [UnpackI(last[0], last[1]), UnpackQ(last[1], last[2])] + Unpacked(last[3..]);
  }

  lemma PackedStep(t: seq<bv16>, j: nat)
    requires 2 * j + 2 <= |t|
    ensures Packed(t[..2 * j + 2])
            == Packed(t[..2 * j]) + [Pack0(t[2 * j]), Pack1(t[2 * j], t[2 * j + 1]), Pack2(t[2 * j + 1])]
  {
    var last := t[2 * j..2 * j + 2];
    PackedAppend(t[..2 * j], last);
    assert t[..2 * j + 2] == t[..2 * j] + last;
    assert Packed(last) == [Pack0(last[0]), Pack1(last[0], last[1]), Pack2(last[1])] + Packed(last[2..]);
  }

  /** convertRecvBuffs, CS16 from CS12, for one channel. */
  method ConvertRecv(inBuf: seq<octet>, outBuf: array<bv16>, numElems: nat)
    requires 3 * numElems <= |inBuf| && 2 * numElems <= outBuf.Length
    modifies outBuf
    ensures outBuf[..2 * numElems] == Unpacked(inBuf[..3 * numElems])
    ensures HoldsSamples(inBuf[..3 * numElems], outBuf[..2 * numElems])
    ensures outBuf[2 * numElems..] == old(outBuf[2 * numElems..])
  {
    hide Unpacked, UnpackI, UnpackQ, HoldsSamples;
    var i, o := 0, 0;
    assert Unpacked([]) == [];
    for j := 0 to numElems
      invariant i == 3 * j && o == 2 * j
      invariant outBuf[..o] == Unpacked(inBuf[..i])
      invariant outBuf[2 * numElems..] == old(outBuf[2 * numElems..])
    {
      UnpackedStep(inBuf, j);
      ghost var before := outBuf[..o];
      var part0, part1, part2 := inBuf[i], inBuf[i + 1], inBuf[i + 2];
      i := i + 3;
      outBuf[o] := UnpackI(part0, part1);
      outBuf[o + 1] := UnpackQ(part1, part2);
      o := o + 2;
      assert outBuf[..o] == before + [UnpackI(part0, part1), UnpackQ(part1, part2)];
    }
    UnpackedValues(inBuf[..3 * numElems]);
  }

  /** convertSendBuffs, CS16 to CS12, for one channel. */
  method ConvertSend(inBuf: seq<bv16>, outBuf: array<octet>, numElems: nat)
    requires 2 * numElems <= |inBuf| && 3 * numElems <= outBuf.Length
    modifies outBuf
    ensures outBuf[..3 * numElems] == Packed(inBuf[..2 * numElems])
    ensures HoldsWords(inBuf[..2 * numElems], outBuf[..3 * numElems])
    ensures outBuf[3 * numElems..] == old(outBuf[3 * numElems..])
  {
    hide Packed, Pack0, Pack1, Pack2, HoldsWords;
    var k, o := 0, 0;
    assert Packed([]) == [];
    for j := 0 to numElems
      invariant k == 2 * j && o == 3 * j
      invariant outBuf[..o] == Packed(inBuf[..k])
      invariant outBuf[3 * numElems..] == old(outBuf[3 * numElems..])
    {
      PackedStep(inBuf, j);
      ghost var before := outBuf[..o];
      var i, q := inBuf[k], inBuf[k + 1];
      k := k + 2;
      outBuf[o] := Pack0(i);
      outBuf[o + 1] := Pack1(i, q);
      outBuf[o + 2] := Pack2(q);
      o := o + 3;
      assert outBuf[..o] == before + [Pack0(i), Pack1(i, q), Pack2(q)];
    }
    PackedValues(inBuf[..2 * numElems]);
  }
}
