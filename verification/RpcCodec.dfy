/** The tagged encoding of RPC values (common/SoapyRPCPacker.cpp and common/SoapyRPCUnpacker.cpp). */
module RpcCodec {
  import opened Bytes
  import opened Sequences
  import opened FloatTransport

  const CHAR: byte := 0
  const BOOL: byte := 1
  const INT32: byte := 2
  const INT64: byte := 3
  const FLOAT64: byte := 4
  const COMPLEX128: byte := 5
  const STRING: byte := 6
  const RANGE: byte := 7
  const RANGE_LIST: byte := 8
  const STRING_LIST: byte := 9
  const FLOAT64_LIST: byte := 10
  const KWARGS: byte := 11
  const KWARGS_LIST: byte := 12
  const EXCEPTION: byte := 13
  const VOID: byte := 14
  const CALL: byte := 15
  const SIZE_LIST: byte := 16
  const ARG_INFO: byte := 17
  const ARG_INFO_LIST: byte := 18

  /** Peers from this version on send and read the step of a range. */
  const RPC_VERSION: nat := 0x000400

  /** A decoded value with the bytes behind it, or the exception of a failed type check or over-consumption. */
  datatype Decoded<T> = Got(value: T, rest: seq<byte>) | Refused

  type Text = seq<byte>

  predicate ValidText(t: Text) {
    |t| < 0x8000_0000
  }

  predicate Tagged(tag: byte, s: seq<byte>) {
    s != [] && s[0] == tag
  }

  // ---------- numbers ----------

  function EncChar(c: byte): seq<byte> {
    [CHAR, c]
  }

  function DecChar(s: seq<byte>): Decoded<byte> {
    if Tagged(CHAR, s) && |s| >= 2 then Got(s[1], s[2..]) else Refused
  }

  function EncBool(b: bool): seq<byte> {
    [BOOL, if b then 1 else 0]
  }

  function DecBool(s: seq<byte>): Decoded<bool> {
    if Tagged(BOOL, s) && |s| >= 2 then Got(s[1] != 0, s[2..]) else Refused
  }

  /** An int, in 32 bits: anything wider wraps around. */
  function EncInt(n: int): (r: seq<byte>)
    ensures |r| == 5
  {
    [INT32] + SignedBytes(4, n)
  }

  function DecInt(s: seq<byte>): Decoded<int> {
    if Tagged(INT32, s) && |s| >= 5 then Got(FromSignedBytes(s[1..5]), s[5..]) else Refused
  }

  function EncLong(n: int): (r: seq<byte>)
    ensures |r| == 9
  {
    [INT64] + SignedBytes(8, n)
  }

  function DecLong(s: seq<byte>): Decoded<int> {
    if Tagged(INT64, s) && |s| >= 9 then Got(FromSignedBytes(s[1..9]), s[9..]) else Refused
  }

  function EncDouble(x: real): seq<byte> {
    [FLOAT64] + (EncInt(Exponent(x)) + EncLong(Mantissa(x)))
  }

  function DecDouble(s: seq<byte>): Decoded<real> {
    if !Tagged(FLOAT64, s) then Refused
    else
      var e := DecInt(s[1..]);
      if e.Refused? then Refused
      else
        var m := DecLong(e.rest);
        if m.Refused? then Refused else Got(Ldexp(m.value, e.value), m.rest)
  }

  datatype Complex = Complex(re: real, im: real)

  function EncComplex(z: Complex): seq<byte> {
    [COMPLEX128] + (EncDouble(z.re) + EncDouble(z.im))
  }

  function DecComplex(s: seq<byte>): Decoded<Complex> {
    if !Tagged(COMPLEX128, s) then Refused
    else
      var r := DecDouble(s[1..]);
      if r.Refused? then Refused
      else
        var i := DecDouble(r.rest);
        if i.Refused? then Refused else Got(Complex(r.value, i.value), i.rest)
  }

  lemma Tail(tag: byte, s: seq<byte>, rest: seq<byte>)
    ensures Tagged(tag, [tag] + s + rest) && ([tag] + s + rest)[1..] == s + rest
  {
  }

  lemma Front(a: seq<byte>, b: seq<byte>)
    ensures (a + b)[..|a|] == a && (a + b)[|a|..] == b
  {
  }

  /** An int that does not fit comes back reduced to 32 bits. */
  lemma IntWraps(n: int, rest: seq<byte>)
    ensures 0 <= n % Pow256(4) < Pow256(4)
    ensures DecInt(EncInt(n) + rest) == Got(Signed(4, n % Pow256(4)), rest)
  {
    PowersOf256();
    BigEndianRoundTrip(4, n % Pow256(4));
    var s := EncInt(n) + rest;
    assert s[1..5] == SignedBytes(4, n) && s[5..] == rest;
  }

  lemma IntTravels(n: int, rest: seq<byte>)
    requires Fits(4, n)
    ensures DecInt(EncInt(n) + rest) == Got(n, rest)
  {
    IntWraps(n, rest);
    SignedRoundTrip(4, n);
  }

  lemma LongTravels(n: int, rest: seq<byte>)
    requires Fits(8, n)
    ensures DecLong(EncLong(n) + rest) == Got(n, rest)
  {
    SignedBytesRoundTrip(8, n);
    var s := EncLong(n) + rest;
    assert s[1..9] == SignedBytes(8, n) && s[9..] == rest;
  }

  /** Every finite double comes back as the same number. */
  lemma DoubleTravels(x: real, rest: seq<byte>)
    requires IsDouble(x)
    ensures DecDouble(EncDouble(x) + rest) == Got(x, rest)
  {
    hide EncInt, EncLong, DecInt, DecLong, Mantissa, Exponent, Ldexp;
    DoubleRoundTrip(x);
    var e, m := EncInt(Exponent(x)), EncLong(Mantissa(x));
    Tail(FLOAT64, e + m, rest);
    Assoc(e, m, rest);
    IntTravels(Exponent(x), m + rest);
    LongTravels(Mantissa(x), rest);
  }

  lemma ComplexTravels(z: Complex, rest: seq<byte>)
    requires IsDouble(z.re) && IsDouble(z.im)
    ensures DecComplex(EncComplex(z) + rest) == Got(z, rest)
  {
    hide EncDouble, DecDouble;
    Tail(COMPLEX128, EncDouble(z.re) + EncDouble(z.im), rest);
    Assoc(EncDouble(z.re), EncDouble(z.im), rest);
    DoubleTravels(z.re, EncDouble(z.im) + rest);
    DoubleTravels(z.im, rest);
  }

  // ---------- strings ----------

  function EncString(t: Text): seq<byte> {
    [STRING] + (EncInt(|t|) + t)
  }

  function DecString(s: seq<byte>): Decoded<Text> {
    if !Tagged(STRING, s) then Refused
    else
      var n := DecInt(s[1..]);
      if n.Refused? || n.value < 0 || |n.rest| < n.value then Refused
      else Got(n.rest[..n.value], n.rest[n.value..])
  }

  lemma StringTravels(t: Text, rest: seq<byte>)
    requires ValidText(t)
    ensures DecString(EncString(t) + rest) == Got(t, rest)
  {
    hide EncInt, DecInt;
    PowersOf256();
    Tail(STRING, EncInt(|t|) + t, rest);
    Assoc(EncInt(|t|), t, rest);
    IntTravels(|t|, t + rest);
    Front(t, rest);
  }

  // ---------- lists ----------

  function EncMany<T>(enc: T -> seq<byte>, xs: seq<T>): seq<byte> {
    if xs == [] then [] else enc(xs[0]) + EncMany(enc, xs[1..])
  }

  function DecMany<U>(dec: seq<byte> -> Decoded<U>, n: nat, s: seq<byte>): (d: Decoded<seq<U>>)
    ensures d.Got? ==> |d.value| == n
  {
    if n == 0 then Got([], s)
    else
      var x := dec(s);
      if x.Refused? then Refused
      else
        var xs := DecMany(dec, n - 1, x.rest);
        if xs.Refused? then Refused else Got([x.value] + xs.value, xs.rest)
  }

  function EncList<T>(tag: byte, enc: T -> seq<byte>, xs: seq<T>): seq<byte> {
    [tag] + (EncInt(|xs|) + EncMany(enc, xs))
  }

  function DecList<U>(tag: byte, dec: seq<byte> -> Decoded<U>, s: seq<byte>): Decoded<seq<U>> {
    if !Tagged(tag, s) then Refused
    else
      var n := DecInt(s[1..]);
      if n.Refused? || n.value < 0 then Refused else DecMany(dec, n.value, n.rest)
  }

  function Map<T, U>(f: T -> U, xs: seq<T>): (r: seq<U>)
    ensures |r| == |xs| && forall i :: 0 <= i < |r| ==> r[i] == f(xs[i])
  {
    seq(|xs|, i requires 0 <= i < |xs| => f(xs[i]))
  }

  /** Each x is decoded to back(x), whatever follows it. */
  ghost predicate Travel<T, U>(enc: T -> seq<byte>, dec: seq<byte> -> Decoded<U>, back: T -> U, xs: seq<T>) {
    forall i, r :: 0 <= i < |xs| ==> dec(enc(xs[i]) + r) == Got(back(xs[i]), r)
  }

  lemma {:induction false} ManyTravel<T, U>(enc: T -> seq<byte>, dec: seq<byte> -> Decoded<U>, back: T -> U,
                                            xs: seq<T>, rest: seq<byte>)
    requires Travel(enc, dec, back, xs)
    ensures DecMany(dec, |xs|, EncMany(enc, xs) + rest) == Got(Map(back, xs), rest)
  {
    if xs == [] {
      assert [] + rest == rest;
    } else {
      assert forall i :: 0 <= i < |xs[1..]| ==> xs[1..][i] == xs[i + 1];
      ManyTravel(enc, dec, back, xs[1..], rest);
      Assoc(enc(xs[0]), EncMany(enc, xs[1..]), rest);
      assert dec(enc(xs[0]) + (EncMany(enc, xs[1..]) + rest)).Got?;
      assert Map(back, xs) == [back(xs[0])] + Map(back, xs[1..]);
    }
  }

  lemma ListTravels<T, U>(tag: byte, enc: T -> seq<byte>, dec: seq<byte> -> Decoded<U>, back: T -> U,
                          xs: seq<T>, rest: seq<byte>)
    requires Travel(enc, dec, back, xs) && |xs| < 0x8000_0000
    ensures DecList(tag, dec, EncList(tag, enc, xs) + rest) == Got(Map(back, xs), rest)
  {
    hide EncInt, DecInt, EncMany, DecMany, Travel;
    PowersOf256();
    Tail(tag, EncInt(|xs|) + EncMany(enc, xs), rest);
    Assoc(EncInt(|xs|), EncMany(enc, xs), rest);
    IntTravels(|xs|, EncMany(enc, xs) + rest);
    ManyTravel(enc, dec, back, xs, rest);
  }

  function Same<T>(x: T): T {
    x
  }

  lemma StringsTravel(xs: seq<Text>)
    requires forall i :: 0 <= i < |xs| ==> ValidText(xs[i])
    ensures Travel(EncString, DecString, Same<Text>, xs) && Map(Same<Text>, xs) == xs
  {
    forall i, r | 0 <= i < |xs| ensures DecString(EncString(xs[i]) + r) == Got(xs[i], r) {
      StringTravels(xs[i], r);
    }
  }

  lemma DoublesTravel(xs: seq<real>)
    requires forall i :: 0 <= i < |xs| ==> IsDouble(xs[i])
    ensures Travel(EncDouble, DecDouble, Same<real>, xs) && Map(Same<real>, xs) == xs
  {
    forall i, r | 0 <= i < |xs| ensures DecDouble(EncDouble(xs[i]) + r) == Got(xs[i], r) {
      DoubleTravels(xs[i], r);
    }
  }

  // ---------- sizes ----------

  const SIZE_RANGE: nat := 0x1_0000_0000_0000_0000

  /** A size_t after the casts to int and, with sign extension, back to size_t. */
  function Widened(v: nat): (w: nat)
    ensures w < SIZE_RANGE
  {
    PowersOf256();
    Signed(4, v % Pow256(4)) % SIZE_RANGE
  }

  /** The low 32 bits always survive, and the whole size does exactly when its upper 33 bits are alike. */
  lemma WidenedExactly(v: nat)
    requires v < SIZE_RANGE
    ensures Widened(v) % 0x1_0000_0000 == v % 0x1_0000_0000
    ensures Widened(v) == v <==> v < 0x8000_0000 || v >= SIZE_RANGE - 0x8000_0000
  {
    PowersOf256();
    hide Pow256;
    var low := v % 0x1_0000_0000;
    if low < 0x8000_0000 {
      assert Widened(v) == low;
    } else {
      assert Widened(v) == low + (SIZE_RANGE - 0x1_0000_0000);
    }
  }

  function DecSize(s: seq<byte>): Decoded<nat> {
    var n := DecInt(s);
    if n.Refused? then Refused else Got(n.value % SIZE_RANGE, n.rest)
  }

  function EncSize(v: nat): seq<byte> {
    EncInt(v)
  }

  lemma SizesTravel(xs: seq<nat>)
    ensures Travel(EncSize, DecSize, Widened, xs)
  {
    hide Pow256, DecInt, EncInt, Signed;
    forall i, r | 0 <= i < |xs| ensures DecSize(EncSize(xs[i]) + r) == Got(Widened(xs[i]), r) {
      IntWraps(xs[i], r);
    }
  }

  // ---------- ranges ----------

  datatype Range = Range(minimum: real, maximum: real, step: real) {
    ghost predicate Valid() {
      IsDouble(minimum) && IsDouble(maximum) && IsDouble(step)
    }
  }

  /** version is the version of the peer. */
  function EncRange(version: nat, r: Range): seq<byte> {
    [RANGE] + (EncDouble(r.minimum) + (EncDouble(r.maximum) + if version >= RPC_VERSION then EncDouble(r.step) else []))
  }

  function DecRange(version: nat, s: seq<byte>): Decoded<Range> {
    if !Tagged(RANGE, s) then Refused
    else
      var lo := DecDouble(s[1..]);
      if lo.Refused? then Refused
      else
        var hi := DecDouble(lo.rest);
        if hi.Refused? then Refused
        else if version < RPC_VERSION then Got(Range(lo.value, hi.value, 0.0), hi.rest)
        else
          var step := DecDouble(hi.rest);
          if step.Refused? then Refused else Got(Range(lo.value, hi.value, step.value), step.rest)
  }

  /** What arrives of a range: an older peer never sees a step. */
  function SeenRange(version: nat, r: Range): Range {
    if version >= RPC_VERSION then r else r.(step := 0.0)
  }

  /** Peers that agree on the version agree on ranges. */
  lemma RangeTravels(version: nat, r: Range, rest: seq<byte>)
    requires r.Valid()
    ensures DecRange(version, EncRange(version, r) + rest) == Got(SeenRange(version, r), rest)
  {
    hide EncDouble, DecDouble;
    var step := if version >= RPC_VERSION then EncDouble(r.step) else [];
    BoundsTravel(r, step, rest);
    if version >= RPC_VERSION {
      DoubleTravels(r.step, rest);
    } else {
      assert step + rest == rest;
    }
  }

  lemma BoundsTravel(r: Range, step: seq<byte>, rest: seq<byte>)
    requires r.Valid()
    ensures var s := [RANGE] + (EncDouble(r.minimum) + (EncDouble(r.maximum) + step)) + rest;
            && Tagged(RANGE, s)
            && DecDouble(s[1..]) == Got(r.minimum, EncDouble(r.maximum) + (step + rest))
            && DecDouble(EncDouble(r.maximum) + (step + rest)) == Got(r.maximum, step + rest)
  {
    hide EncDouble, DecDouble;
    var lo, hi := EncDouble(r.minimum), EncDouble(r.maximum);
    Tail(RANGE, lo + (hi + step), rest);
    Assoc(lo, hi + step, rest);
    Assoc(hi, step, rest);
    DoubleTravels(r.minimum, hi + (step + rest));
    DoubleTravels(r.maximum, step + rest);
  }

  /** Why the two sides must agree on the version: a reader that takes its peer for an older one
      leaves the step unread, in front of everything that follows. */
  lemma StepLeftUnread(writer: nat, reader: nat, r: Range, rest: seq<byte>)
    requires r.Valid() && writer >= RPC_VERSION > reader
    ensures DecRange(reader, EncRange(writer, r) + rest) == Got(r.(step := 0.0), EncDouble(r.step) + rest)
  {
    hide EncDouble, DecDouble;
    BoundsTravel(r, EncDouble(r.step), rest);
  }

  function RangeEncoder(version: nat): Range -> seq<byte> {
    r => EncRange(version, r)
  }

  function RangeDecoder(version: nat): seq<byte> -> Decoded<Range> {
    s => DecRange(version, s)
  }

  function RangeSeen(version: nat): Range -> Range {
    r => SeenRange(version, r)
  }

  lemma RangesTravel(version: nat, xs: seq<Range>)
    requires forall i :: 0 <= i < |xs| ==> xs[i].Valid()
    ensures Travel(RangeEncoder(version), RangeDecoder(version), RangeSeen(version), xs)
  {
    hide EncRange, DecRange, SeenRange, Range.Valid;
    forall i, r | 0 <= i < |xs|
      ensures DecRange(version, EncRange(version, xs[i]) + r) == Got(SeenRange(version, xs[i]), r)
    {
      RangeTravels(version, xs[i], r);
    }
  }

  // ---------- dictionaries ----------

  type Kwargs = map<Text, Text>

  datatype Entry = Entry(key: Text, val: Text)

  function EncEntry(e: Entry): seq<byte> {
    EncString(e.key) + EncString(e.val)
  }

  function DecEntry(s: seq<byte>): Decoded<Entry> {
    var k := DecString(s);
    if k.Refused? then Refused
    else
      var v := DecString(k.rest);
      if v.Refused? then Refused else Got(Entry(k.value, v.value), v.rest)
  }

  /** The entries assigned one after the other: a later one replaces an earlier one of the same key. */
  function MapOf(es: seq<Entry>): Kwargs {
    if es == [] then map[] else MapOf(es[..|es| - 1])[es[|es| - 1].key := es[|es| - 1].val]
  }

  /** es lists the entries of m, each once. */
  ghost predicate Enumerates(es: seq<Entry>, m: Kwargs) {
    && (forall i :: 0 <= i < |es| ==> es[i].key in m && m[es[i].key] == es[i].val)
    && (forall k :: k in m ==> exists i :: 0 <= i < |es| && es[i].key == k)
    && (forall i, j :: 0 <= i < j < |es| ==> es[i].key != es[j].key)
  }

  lemma {:induction false} MapOfAt(es: seq<Entry>, m: Kwargs)
    requires forall i :: 0 <= i < |es| ==> es[i].key in m && m[es[i].key] == es[i].val
    ensures forall k :: k in MapOf(es) <==> exists i :: 0 <= i < |es| && es[i].key == k
    ensures forall k :: k in MapOf(es) ==> k in m && MapOf(es)[k] == m[k]
  {
    if es != [] {
      var front, last := es[..|es| - 1], es[|es| - 1];
      MapOfAt(front, m);
      forall k ensures k in MapOf(es) <==> exists i :: 0 <= i < |es| && es[i].key == k {
        if k in MapOf(front) {
          var i :| 0 <= i < |front| && front[i].key == k;
          assert es[i].key == k;
        }
        if i :| 0 <= i < |es| && es[i].key == k {
          assert i < |front| ==> front[i].key == k;
        }
      }
    }
  }

  lemma MapOfEnumeration(es: seq<Entry>, m: Kwargs)
    requires Enumerates(es, m)
    ensures MapOf(es) == m
  {
    MapOfAt(es, m);
  }

  /** Of several entries with the same key the last one counts. */
  lemma {:induction false} LastEntryWins(es: seq<Entry>, i: nat)
    requires i < |es| && forall j :: i < j < |es| ==> es[j].key != es[i].key
    ensures es[i].key in MapOf(es) && MapOf(es)[es[i].key] == es[i].val
    decreases |es|
  {
    if i < |es| - 1 {
      LastEntryWins(es[..|es| - 1], i);
    }
  }

  function DecKwargs(s: seq<byte>): Decoded<Kwargs> {
    var es := DecList(KWARGS, DecEntry, s);
    if es.Refused? then Refused else Got(MapOf(es.value), es.rest)
  }

  lemma EntriesTravel(xs: seq<Entry>)
    requires forall i :: 0 <= i < |xs| ==> ValidText(xs[i].key) && ValidText(xs[i].val)
    ensures Travel(EncEntry, DecEntry, Same<Entry>, xs) && Map(Same<Entry>, xs) == xs
  {
    hide EncString, DecString;
    forall i, r | 0 <= i < |xs| ensures DecEntry(EncEntry(xs[i]) + r) == Got(xs[i], r) {
      var e := xs[i];
      Assoc(EncString(e.key), EncString(e.val), r);
      StringTravels(e.key, EncString(e.val) + r);
      StringTravels(e.val, r);
    }
  }

  ghost predicate ValidKwargs(m: Kwargs) {
    |m| < 0x8000_0000 && forall k :: k in m ==> ValidText(k) && ValidText(m[k])
  }

  lemma {:induction false} EnumerationLength(es: seq<Entry>, m: Kwargs)
    requires Enumerates(es, m)
    ensures |es| == |m|
    decreases |es|
  {
    if es == [] {
      assert m == map[];
    } else {
      hide Enumerates;
      WithoutLast(es, m);
      EnumerationLength(es[..|es| - 1], m - {es[|es| - 1].key});
      assert m.Keys == (m - {es[|es| - 1].key}).Keys + {es[|es| - 1].key};
    }
  }

  lemma WithoutLast(es: seq<Entry>, m: Kwargs)
    requires es != [] && Enumerates(es, m)
    ensures es[|es| - 1].key in m && Enumerates(es[..|es| - 1], m - {es[|es| - 1].key})
  {
    var front, less := es[..|es| - 1], m - {es[|es| - 1].key};
    forall k | k in less ensures exists i :: 0 <= i < |front| && front[i].key == k {
      var i :| 0 <= i < |es| && es[i].key == k;
      assert front[i].key == k;
    }
  }

  /** A dictionary arrives whole, in whatever order its entries are walked. */
  lemma KwargsTravel(es: seq<Entry>, m: Kwargs, rest: seq<byte>)
    requires Enumerates(es, m) && ValidKwargs(m)
    ensures DecKwargs(EncList(KWARGS, EncEntry, es) + rest) == Got(m, rest)
  {
    hide DecList, EncList, Travel;
    EnumerationLength(es, m);
    EntriesTravel(es);
    ListTravels(KWARGS, EncEntry, DecEntry, Same<Entry>, es, rest);
    MapOfEnumeration(es, m);
  }
}
