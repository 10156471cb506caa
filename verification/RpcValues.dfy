/** Every value the RPC protocol carries, and messages made of them. */
module RpcValues {
  import opened Bytes
  import opened Sequences
  import opened FloatTransport
  import opened RpcCodec

  datatype ArgInfo = ArgInfo(key: Text, value: Text, name: Text, description: Text, units: Text, kind: int,
                             range: Range, options: seq<Text>, optionNames: seq<Text>)
  {
    function Texts(): seq<Text> {
      [key, value, name, description, units]
    }

    ghost predicate Valid() {
      && AllTexts(Texts()) && Fits(4, kind) && range.Valid()
      && |options| < 0x8000_0000 && AllTexts(options) && |optionNames| < 0x8000_0000 && AllTexts(optionNames)
    }
  }

  ghost predicate AllTexts(ts: seq<Text>) {
    forall i :: 0 <= i < |ts| ==> ValidText(ts[i])
  }

  function EncStrings(ts: seq<Text>): seq<byte> {
    EncList(STRING_LIST, EncString, ts)
  }

  function DecStrings(s: seq<byte>): Decoded<seq<Text>> {
    DecList(STRING_LIST, DecString, s)
  }

  lemma StringListTravels(ts: seq<Text>, rest: seq<byte>)
    requires AllTexts(ts) && |ts| < 0x8000_0000
    ensures DecStrings(EncStrings(ts) + rest) == Got(ts, rest)
  {
    hide DecList, EncList, Travel;
    StringsTravel(ts);
    ListTravels(STRING_LIST, EncString, DecString, Same<Text>, ts, rest);
  }

  function EncArgInfo(version: nat, a: ArgInfo): seq<byte> {
    [ARG_INFO] + (EncMany(EncString, a.Texts()) + (EncInt(a.kind) + (EncRange(version, a.range)
                  + (EncStrings(a.options) + EncStrings(a.optionNames)))))
  }

  function DecArgInfo(version: nat, s: seq<byte>): Decoded<ArgInfo> {
    if !Tagged(ARG_INFO, s) then Refused
    else
      var t := DecMany(DecString, 5, s[1..]);
      if t.Refused? then Refused
      else
        var kind := DecInt(t.rest);
        if kind.Refused? then Refused
        else
          var range := DecRange(version, kind.rest);
          if range.Refused? then Refused
          else
            var options := DecStrings(range.rest);
            if options.Refused? then Refused
            else
              var names := DecStrings(options.rest);
              if names.Refused? then Refused
              else Got(ArgInfo(t.value[0], t.value[1], t.value[2], t.value[3], t.value[4], kind.value,
                               range.value, options.value, names.value), names.rest)
  }

  function SeenArgInfo(version: nat, a: ArgInfo): ArgInfo {
    a.(range := SeenRange(version, a.range))
  }

  lemma ArgInfoTravels(version: nat, a: ArgInfo, rest: seq<byte>)
    requires a.Valid()
    ensures DecArgInfo(version, EncArgInfo(version, a) + rest) == Got(SeenArgInfo(version, a), rest)
  {
    hide EncMany, DecMany, EncInt, DecInt, EncRange, DecRange, EncStrings, DecStrings, Travel, Range.Valid,
         SeenRange, AllTexts, Map;
    var t, k, r := EncMany(EncString, a.Texts()), EncInt(a.kind), EncRange(version, a.range);
    var o, n := EncStrings(a.options), EncStrings(a.optionNames);
    Tail(ARG_INFO, t + (k + (r + (o + n))), rest);
    Assoc(t, k + (r + (o + n)), rest);
    Assoc(k, r + (o + n), rest);
    Assoc(r, o + n, rest);
    Assoc(o, n, rest);
    TextsTravel(a, k + (r + (o + (n + rest))));
    IntTravels(a.kind, r + (o + (n + rest)));
    RangeTravels(version, a.range, o + (n + rest));
    StringListTravels(a.options, n + rest);
    StringListTravels(a.optionNames, rest);
  }

  lemma TextsTravel(a: ArgInfo, rest: seq<byte>)
    requires AllTexts(a.Texts())
    ensures DecMany(DecString, 5, EncMany(EncString, a.Texts()) + rest) == Got(a.Texts(), rest)
  {
    hide EncMany, DecMany, Travel;
    StringsTravel(a.Texts());
    ManyTravel(EncString, DecString, Same<Text>, a.Texts(), rest);
  }

  function ArgInfoEncoder(version: nat): ArgInfo -> seq<byte> {
    a => EncArgInfo(version, a)
  }

  function ArgInfoDecoder(version: nat): seq<byte> -> Decoded<ArgInfo> {
    s => DecArgInfo(version, s)
  }

  function ArgInfoSeen(version: nat): ArgInfo -> ArgInfo {
    a => SeenArgInfo(version, a)
  }

  lemma ArgInfosTravel(version: nat, xs: seq<ArgInfo>)
    requires forall i :: 0 <= i < |xs| ==> xs[i].Valid()
    ensures Travel(ArgInfoEncoder(version), ArgInfoDecoder(version), ArgInfoSeen(version), xs)
  {
    hide EncArgInfo, DecArgInfo, SeenArgInfo, ArgInfo.Valid;
    forall i, r | 0 <= i < |xs|
      ensures DecArgInfo(version, EncArgInfo(version, xs[i]) + r) == Got(SeenArgInfo(version, xs[i]), r)
    {
      ArgInfoTravels(version, xs[i], r);
    }
  }

  // ---------- all values ----------

  datatype Value =
    | CharVal(c: byte) | BoolVal(b: bool) | IntVal(n: int) | LongVal(l: int) | DoubleVal(x: real)
    | ComplexVal(z: Complex)
    | StringVal(t: Text) | RangeVal(r: Range) | RangeListVal(rs: seq<Range>) | StringListVal(ts: seq<Text>)
    | DoubleListVal(xs: seq<real>) | KwargsVal(m: Kwargs) | KwargsListVal(ms: seq<Kwargs>)
    | SizeListVal(sizes: seq<nat>)
    | ArgInfoVal(a: ArgInfo) | ArgInfoListVal(infos: seq<ArgInfo>)
    | ExceptionVal(what: Text) | VoidVal | CallVal(call: int)
  {
    ghost predicate Valid() {
      match this
      case CharVal(_) | BoolVal(_) | VoidVal => true
      case IntVal(n) => Fits(4, n)
      case LongVal(l) => Fits(8, l)
      case DoubleVal(x) => IsDouble(x)
      case ComplexVal(z) => IsDouble(z.re) && IsDouble(z.im)
      case StringVal(t) => ValidText(t)
      case RangeVal(r) => r.Valid()
      case RangeListVal(rs) => |rs| < 0x8000_0000 && forall i :: 0 <= i < |rs| ==> rs[i].Valid()
      case StringListVal(ts) => |ts| < 0x8000_0000 && AllTexts(ts)
      case DoubleListVal(xs) => |xs| < 0x8000_0000 && forall i :: 0 <= i < |xs| ==> IsDouble(xs[i])
      case KwargsVal(m) => ValidKwargs(m)
      case KwargsListVal(ms) => |ms| < 0x8000_0000 && forall i :: 0 <= i < |ms| ==> ValidKwargs(ms[i])
      case SizeListVal(sizes) => |sizes| < 0x8000_0000 && forall i :: 0 <= i < |sizes| ==> sizes[i] < SIZE_RANGE
      case ArgInfoVal(a) => a.Valid()
      case ArgInfoListVal(infos) => |infos| < 0x8000_0000 && forall i :: 0 <= i < |infos| ==> infos[i].Valid()
      case ExceptionVal(what) => ValidText(what)
      case CallVal(call) => Fits(4, call)
    }

    function Tag(): byte {
      match this
      case CharVal(_) => CHAR
      case BoolVal(_) => BOOL
      case IntVal(_) => INT32
      case LongVal(_) => INT64
      case DoubleVal(_) => FLOAT64
      case ComplexVal(_) => COMPLEX128
      case StringVal(_) => STRING
      case RangeVal(_) => RANGE
      case RangeListVal(_) => RANGE_LIST
      case StringListVal(_) => STRING_LIST
      case DoubleListVal(_) => FLOAT64_LIST
      case KwargsVal(_) => KWARGS
      case KwargsListVal(_) => KWARGS_LIST
      case SizeListVal(_) => SIZE_LIST
      case ArgInfoVal(_) => ARG_INFO
      case ArgInfoListVal(_) => ARG_INFO_LIST
      case ExceptionVal(_) => EXCEPTION
      case VoidVal => VOID
      case CallVal(_) => CALL
    }
  }

  /** The version of the peer, and the order in which a dictionary's entries are walked. */
  datatype Codec = Codec(version: nat, walk: Kwargs -> seq<Entry>) {
    ghost predicate Valid() {
      forall m :: Enumerates(walk(m), m)
    }

    function EncKwargs(m: Kwargs): seq<byte> {
      EncList(KWARGS, EncEntry, walk(m))
    }

    function KwargsEncoder(): Kwargs -> seq<byte> {
      m => EncKwargs(m)
    }

    function Encode(v: Value): seq<byte> {
      match v
      case CharVal(c) => EncChar(c)
      case BoolVal(b) => EncBool(b)
      case IntVal(n) => EncInt(n)
      case LongVal(l) => EncLong(l)
      case DoubleVal(x) => EncDouble(x)
      case ComplexVal(z) => EncComplex(z)
      case StringVal(t) => EncString(t)
      case RangeVal(r) => EncRange(version, r)
      case RangeListVal(rs) => EncList(RANGE_LIST, RangeEncoder(version), rs)
      case StringListVal(ts) => EncStrings(ts)
      case DoubleListVal(xs) => EncList(FLOAT64_LIST, EncDouble, xs)
      case KwargsVal(m) => EncKwargs(m)
      case KwargsListVal(ms) => EncList(KWARGS_LIST, KwargsEncoder(), ms)
      case SizeListVal(sizes) => EncList(SIZE_LIST, EncSize, sizes)
      case ArgInfoVal(a) => EncArgInfo(version, a)
      case ArgInfoListVal(infos) => EncList(ARG_INFO_LIST, ArgInfoEncoder(version), infos)
      case ExceptionVal(what) => [EXCEPTION] + EncString(what)
      case VoidVal => [VOID]
      case CallVal(call) => [CALL] + EncInt(call)
    }

    /** Unpacks a value of the type that the tag names. */
    function Decode(tag: byte, s: seq<byte>): Decoded<Value> {
      if tag == CHAR then As(c => CharVal(c), DecChar(s))
      else if tag == BOOL then As(b => BoolVal(b), DecBool(s))
      else if tag == INT32 then As(n => IntVal(n), DecInt(s))
      else if tag == INT64 then As(l => LongVal(l), DecLong(s))
      else if tag == FLOAT64 then As(x => DoubleVal(x), DecDouble(s))
      else if tag == COMPLEX128 then As(z => ComplexVal(z), DecComplex(s))
      else if tag == STRING then As(t => StringVal(t), DecString(s))
      else if tag == RANGE then As(r => RangeVal(r), DecRange(version, s))
      else if tag == RANGE_LIST then As(rs => RangeListVal(rs), DecList(RANGE_LIST, RangeDecoder(version), s))
      else if tag == STRING_LIST then As(ts => StringListVal(ts), DecStrings(s))
      else if tag == FLOAT64_LIST then As(xs => DoubleListVal(xs), DecList(FLOAT64_LIST, DecDouble, s))
      else if tag == KWARGS then As(m => KwargsVal(m), DecKwargs(s))
      else if tag == KWARGS_LIST then As(ms => KwargsListVal(ms), DecList(KWARGS_LIST, DecKwargs, s))
      else if tag == SIZE_LIST then As(sizes => SizeListVal(sizes), DecList(SIZE_LIST, DecSize, s))
      else if tag == ARG_INFO then As(a => ArgInfoVal(a), DecArgInfo(version, s))
      else if tag == ARG_INFO_LIST then
        As(infos => ArgInfoListVal(infos), DecList(ARG_INFO_LIST, ArgInfoDecoder(version), s))
      else if !Tagged(tag, s) then Refused
      else if tag == EXCEPTION then As(what => ExceptionVal(what), DecString(s[1..]))
      else if tag == VOID then Got(VoidVal, s[1..])
      else if tag == CALL then As(call => CallVal(call), DecInt(s[1..]))
      else Refused
    }

    /** What arrives of a value. */
    function Seen(v: Value): Value {
      match v
      case RangeVal(r) => RangeVal(SeenRange(version, r))
      case RangeListVal(rs) => RangeListVal(Map(RangeSeen(version), rs))
      case SizeListVal(sizes) => SizeListVal(Map(Widened, sizes))
      case ArgInfoVal(a) => ArgInfoVal(SeenArgInfo(version, a))
      case ArgInfoListVal(infos) => ArgInfoListVal(Map(ArgInfoSeen(version), infos))
      case _ => v
    }

    /** Nothing of the value is lost on the way: a step only reaches a current peer, a size only with its high bits
        alike. */
    predicate Survives(v: Value) {
      match v
      case RangeVal(r) => version >= RPC_VERSION || r.step == 0.0
      case RangeListVal(rs) => version >= RPC_VERSION || forall i :: 0 <= i < |rs| ==> rs[i].step == 0.0
      case SizeListVal(sizes) => forall i :: 0 <= i < |sizes| ==>
          sizes[i] < 0x8000_0000 || sizes[i] >= SIZE_RANGE - 0x8000_0000
      case ArgInfoVal(a) => version >= RPC_VERSION || a.range.step == 0.0
      case ArgInfoListVal(infos) =>
        version >= RPC_VERSION || forall i :: 0 <= i < |infos| ==> infos[i].range.step == 0.0
      case _ => true
    }
  }

  function As<T>(f: T -> Value, d: Decoded<T>): Decoded<Value> {
    if d.Refused? then Refused else Got(f(d.value), d.rest)
  }

  lemma KwargsListTravels(c: Codec, ms: seq<Kwargs>)
    requires c.Valid() && forall i :: 0 <= i < |ms| ==> ValidKwargs(ms[i])
    ensures Travel(c.KwargsEncoder(), DecKwargs, Same<Kwargs>, ms) && Map(Same<Kwargs>, ms) == ms
  {
    hide DecKwargs, ValidKwargs, Enumerates, EncList;
    forall i, r | 0 <= i < |ms| ensures DecKwargs(c.EncKwargs(ms[i]) + r) == Got(ms[i], r) {
      KwargsTravel(c.walk(ms[i]), ms[i], r);
    }
  }

  lemma PlainTravels(c: Codec, v: Value, rest: seq<byte>)
    requires v.Valid()
    requires v.CharVal? || v.BoolVal? || v.IntVal? || v.LongVal? || v.DoubleVal? || v.ComplexVal? || v.StringVal?
    ensures c.Decode(v.Tag(), c.Encode(v) + rest) == Got(v, rest)
  {
    hide EncInt, DecInt, EncLong, DecLong, EncDouble, DecDouble, EncComplex, DecComplex, EncString, DecString,
         IsDouble, Fits;
    match v
    case CharVal(_) => assert (c.Encode(v) + rest)[2..] == rest;
    case BoolVal(_) => assert (c.Encode(v) + rest)[2..] == rest;
    case IntVal(n) => IntTravels(n, rest);
    case LongVal(l) => LongTravels(l, rest);
    case DoubleVal(x) => DoubleTravels(x, rest);
    case ComplexVal(z) => ComplexTravels(z, rest);
    case StringVal(t) => StringTravels(t, rest);
  }

  lemma ListValueTravels(c: Codec, v: Value, rest: seq<byte>)
    requires c.Valid() && v.Valid()
    requires || v.RangeListVal? || v.StringListVal? || v.DoubleListVal?
             || v.KwargsListVal? || v.SizeListVal? || v.ArgInfoListVal?
    ensures c.Decode(v.Tag(), c.Encode(v) + rest) == Got(c.Seen(v), rest)
  {
    hide Codec.Valid, EncList, DecList, Travel, Range.Valid, ArgInfo.Valid, ValidKwargs, IsDouble, AllTexts,
         EncStrings, DecStrings, Map;
    match v
    case RangeListVal(rs) =>
      RangesTravel(c.version, rs);
      ListTravels(RANGE_LIST, RangeEncoder(c.version), RangeDecoder(c.version), RangeSeen(c.version), rs, rest);
    case StringListVal(ts) => StringListTravels(ts, rest);
    case DoubleListVal(xs) =>
      DoublesTravel(xs);
      ListTravels(FLOAT64_LIST, EncDouble, DecDouble, Same<real>, xs, rest);
    case KwargsListVal(ms) =>
      KwargsListTravels(c, ms);
      ListTravels(KWARGS_LIST, c.KwargsEncoder(), DecKwargs, Same<Kwargs>, ms, rest);
    case SizeListVal(sizes) =>
      SizesTravel(sizes);
      ListTravels(SIZE_LIST, EncSize, DecSize, Widened, sizes, rest);
    case ArgInfoListVal(infos) =>
      ArgInfosTravel(c.version, infos);
      ListTravels(ARG_INFO_LIST, ArgInfoEncoder(c.version), ArgInfoDecoder(c.version), ArgInfoSeen(c.version),
                  infos, rest);
  }

  /** Every supported value arrives, whatever follows it in the message. */
  lemma ValueTravels(c: Codec, v: Value, rest: seq<byte>)
    requires c.Valid() && v.Valid()
    ensures c.Decode(v.Tag(), c.Encode(v) + rest) == Got(c.Seen(v), rest)
  {
    hide EncInt, DecInt, EncString, DecString, EncRange, DecRange, EncArgInfo, DecArgInfo, Range.Valid, ArgInfo.Valid,
         ValidKwargs, Fits, Enumerates, EncList, DecKwargs, SeenRange, SeenArgInfo;
    match v
    case RangeVal(r) => RangeTravels(c.version, r, rest);
    case KwargsVal(m) => KwargsTravel(c.walk(m), m, rest);
    case ArgInfoVal(a) => ArgInfoTravels(c.version, a, rest);
    case ExceptionVal(what) =>
      Tail(EXCEPTION, EncString(what), rest);
      StringTravels(what, rest);
    case VoidVal => Tail(VOID, [], rest); assert [VOID] + [] == [VOID] && [] + rest == rest;
    case CallVal(call) =>
      Tail(CALL, EncInt(call), rest);
      IntTravels(call, rest);
    case RangeListVal(_) => ListValueTravels(c, v, rest);
    case StringListVal(_) => ListValueTravels(c, v, rest);
    case DoubleListVal(_) => ListValueTravels(c, v, rest);
    case KwargsListVal(_) => ListValueTravels(c, v, rest);
    case SizeListVal(_) => ListValueTravels(c, v, rest);
    case ArgInfoListVal(_) => ListValueTravels(c, v, rest);
    case _ => PlainTravels(c, v, rest);
  }

  /** What arrives is the value itself exactly when the peer's version and the width of sizes allow it. */
  lemma SeenExactly(c: Codec, v: Value)
    requires v.Valid()
    ensures c.Seen(v) == v <==> c.Survives(v)
  {
    hide Widened, Range.Valid, ArgInfo.Valid;
    match v
    case SizeListVal(sizes) =>
      forall i | 0 <= i < |sizes| {
        WidenedExactly(sizes[i]);
      }
      assert Map(Widened, sizes) == sizes <==> forall i :: 0 <= i < |sizes| ==> Widened(sizes[i]) == sizes[i];
    case RangeListVal(rs) =>
      assert Map(RangeSeen(c.version), rs) == rs <==>
             forall i :: 0 <= i < |rs| ==> SeenRange(c.version, rs[i]) == rs[i];
    case ArgInfoListVal(infos) =>
      assert Map(ArgInfoSeen(c.version), infos) == infos <==>
             forall i :: 0 <= i < |infos| ==> SeenArgInfo(c.version, infos[i]) == infos[i];
    case _ =>
  }

  /** A size that does not survive: 2 to the 31 arrives with its upper 32 bits set. */
  lemma SizeIsWidened(c: Codec)
    ensures c.Seen(SizeListVal([0x8000_0000])) == SizeListVal([0xffff_ffff_8000_0000])
  {
    PowersOf256();
    hide Pow256;
    assert Widened(0x8000_0000) == 0xffff_ffff_8000_0000;
  }

  // ---------- messages ----------

  function EncodeAll(c: Codec, vs: seq<Value>): seq<byte> {
    if vs == [] then [] else c.Encode(vs[0]) + EncodeAll(c, vs[1..])
  }

  function Tags(vs: seq<Value>): (r: seq<byte>)
    ensures |r| == |vs|
  {
    seq(|vs|, i requires 0 <= i < |vs| => vs[i].Tag())
  }

  /** Unpacks one value after the other. */
  function DecodeAll(c: Codec, tags: seq<byte>, s: seq<byte>): Decoded<seq<Value>> {
    if tags == [] then Got([], s)
    else
      var v := c.Decode(tags[0], s);
      if v.Refused? then Refused
      else
        var vs := DecodeAll(c, tags[1..], v.rest);
        if vs.Refused? then Refused else Got([v.value] + vs.value, vs.rest)
  }

  function SeenAll(c: Codec, vs: seq<Value>): (r: seq<Value>)
    ensures |r| == |vs|
  {
    seq(|vs|, i requires 0 <= i < |vs| => c.Seen(vs[i]))
  }

  ghost predicate AllValid(vs: seq<Value>) {
    forall i :: 0 <= i < |vs| ==> vs[i].Valid()
  }

  /** A message's values arrive in order, whatever follows them. */
  lemma {:induction false} ValuesTravel(c: Codec, vs: seq<Value>, rest: seq<byte>)
    requires c.Valid() && AllValid(vs)
    ensures DecodeAll(c, Tags(vs), EncodeAll(c, vs) + rest) == Got(SeenAll(c, vs), rest)
  {
    hide Codec.Valid, Codec.Encode, Codec.Decode, Codec.Seen, Value.Valid, Value.Tag;
    if vs == [] {
      assert [] + rest == rest;
    } else {
      ValuesTravel(c, vs[1..], rest);
      Assoc(c.Encode(vs[0]), EncodeAll(c, vs[1..]), rest);
      ValueTravels(c, vs[0], EncodeAll(c, vs[1..]) + rest);
      assert Tags(vs)[1..] == Tags(vs[1..]);
      assert SeenAll(c, vs) == [c.Seen(vs[0])] + SeenAll(c, vs[1..]);
    }
  }

  lemma EncodingNotEmpty(c: Codec, v: Value)
    ensures c.Encode(v) != []
  {
    hide EncMany, EncInt, EncLong, EncEntry;
  }

  lemma {:induction false} EncodeAllSplit(c: Codec, vs: seq<Value>, k: nat)
    requires k <= |vs|
    ensures EncodeAll(c, vs) == EncodeAll(c, vs[..k]) + EncodeAll(c, vs[k..])
  {
    hide Codec.Encode;
    if k == 0 {
      assert vs[0..] == vs && vs[..0] == [];
    } else {
      EncodeAllSplit(c, vs[1..], k - 1);
      assert vs[1..][..k - 1] == vs[..k][1..] && vs[1..][k - 1..] == vs[k..];
      Assoc(c.Encode(vs[0]), EncodeAll(c, vs[1..k]), EncodeAll(c, vs[k..]));
      assert vs[..k][0] == vs[0] && vs[..k][1..] == vs[1..k];
    }
  }

  /** After any k values the rest of the message is the encoding of the others, and it is used up exactly
      when all values were unpacked. */
  lemma DoneExactly(c: Codec, vs: seq<Value>, k: nat)
    requires c.Valid() && AllValid(vs) && k <= |vs|
    ensures DecodeAll(c, Tags(vs[..k]), EncodeAll(c, vs)) == Got(SeenAll(c, vs[..k]), EncodeAll(c, vs[k..]))
    ensures EncodeAll(c, vs[k..]) == [] <==> k == |vs|
  {
    hide Codec.Valid, Codec.Encode, Codec.Decode, Codec.Seen, Value.Valid, Value.Tag;
    EncodeAllSplit(c, vs, k);
    ValuesTravel(c, vs[..k], EncodeAll(c, vs[k..]));
    if k < |vs| {
      EncodingNotEmpty(c, vs[k]);
    }
  }
}
