/** SoapySDR's stream flags, the bits of an int that travels in every datagram. */
module StreamFlags {

  /** END_BURST is bit 1, HAS_TIME bit 2, END_ABRUPT bit 3, ONE_PACKET bit 4, MORE_FRAGMENTS bit 5. */
  datatype Flags = Flags(bit0: bool, endBurst: bool, hasTime: bool, endAbrupt: bool, onePacket: bool,
                         moreFragments: bool, high: nat)
  {
    predicate Valid() {
      high < 0x400_0000
    }

    /** The flags as an unsigned 32-bit word. */
    function Word(): (w: nat)
      requires Valid()
      ensures w < 0x1_0000_0000
    {
      Push(bit0, Push(endBurst, Push(hasTime, Push(endAbrupt, Push(onePacket, Push(moreFragments, high))))))
    }

    /** flags & (END_BURST | ONE_PACKET | END_ABRUPT) is not zero. */
    predicate Trailing() {
      endBurst || onePacket || endAbrupt
    }

    /** flags | (more & (END_BURST | ONE_PACKET | END_ABRUPT)). */
    function WithTrailing(more: Flags): Flags {
      this.(endBurst := endBurst || more.endBurst, onePacket := onePacket || more.onePacket,
            endAbrupt := endAbrupt || more.endAbrupt)
    }
  }

  const NO_FLAGS := Flags(false, false, false, false, false, false, 0)

  /** The word with bit b below the bits of w. */
  function Push(b: bool, w: nat): (r: nat)
    ensures r / 2 == w && (r % 2 == 1 <==> b)
    ensures r <= 2 * w + 1
  {
    2 * w + if b then 1 else 0
  }

  function FlagsOf(w: nat): (f: Flags)
    requires w < 0x1_0000_0000
    ensures f.Valid()
  {
    var w1 := w / 2;
    var w2 := w1 / 2;
    var w3 := w2 / 2;
    var w4 := w3 / 2;
    var w5 := w4 / 2;
    Flags(w % 2 == 1, w1 % 2 == 1, w2 % 2 == 1, w3 % 2 == 1, w4 % 2 == 1, w5 % 2 == 1, w5 / 2)
  }

  /** What each flag is worth in the word. */
  lemma FlagValues(f: Flags)
    requires f.Valid()
    ensures f.Word() == (if f.bit0 then 1 else 0) + (if f.endBurst then 2 else 0) + (if f.hasTime then 4 else 0)
                        + (if f.endAbrupt then 8 else 0) + (if f.onePacket then 16 else 0)
                        + (if f.moreFragments then 32 else 0) + 64 * f.high
  {
  }

  lemma FlagsRoundTrip(f: Flags)
    requires f.Valid()
    ensures FlagsOf(f.Word()) == f
  {
    var w5 := Push(f.moreFragments, f.high);
    var w4 := Push(f.onePacket, w5);
    var w3 := Push(f.endAbrupt, w4);
    var w2 := Push(f.hasTime, w3);
    assert f.Word() == Push(f.bit0, Push(f.endBurst, w2));
  }
}
