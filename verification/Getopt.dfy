/** The scanner getopt_internal of server/msvc/getopt.h: a state machine over optind, place,
    nonopt_start and nonopt_end that reorders the argument vector while it reads options. */
module Getopt {
  import opened Arithmetic
  import opened PermuteArgs
  import opened Sequences

  /** What the option tables decide: how many results an option word yields (more than one for a
      cluster of letters) and how many slots, its arguments included, it takes of the remaining words. */
  datatype Config = Config(permute: bool, allArgs: bool, dashListed: bool,
                           letters: string -> nat, span: seq<string> -> nat)
  {
    predicate IsOperand(w: string) {
      |w| == 0 || w[0] != '-' || (|w| == 1 && !dashListed)
    }

    predicate IsTerminator(w: string) {
      w == "--"
    }

    function Letters(w: string): (n: nat)
      ensures n > 0
    {
      Max(1, letters(w))
    }

    function Span(rest: seq<string>): (n: nat)
      requires rest != []
      ensures 1 <= n <= |rest|
    {
      Max(1, Min(span(rest), |rest|))
    }

    /** For each word, whether the scan treats it as an option: an option word, an argument of one, or "--". */
    function Kinds(words: seq<string>): (kinds: seq<bool>)
      ensures |kinds| == |words|
    {
      if words == [] then []
      else if IsOperand(words[0]) then
        if allArgs then [true] + Kinds(words[1..])
        else if permute then [false] + Kinds(words[1..])
        else seq(|words|, _ => false)
      else if IsTerminator(words[0]) then [true] + seq(|words| - 1, _ => false)
      else
        var n := Span(words);
        seq(n, _ => true) + Kinds(words[n..])
    }

    /** How many results the scan of the words gives before it ends: one for every letter of an option word, and one for
        every operand that is returned in order. */
    function Results(words: seq<string>): nat {
      if words == [] then 0
      else if IsOperand(words[0]) then
        if allArgs then 1 + Results(words[1..])
        else if permute then Results(words[1..])
        else 0
      else if IsTerminator(words[0]) then 0
      else Letters(words[0]) + Results(words[Span(words)..])
    }

    function Options(words: seq<string>): seq<string> {
      Pick(words, Kinds(words), true)
    }

    function Operands(words: seq<string>): seq<string> {
      Pick(words, Kinds(words), false)
    }
  }

  /** Words with a dash in front are option words; "-" itself is one only if it is listed, and "--" ends the options. */
  lemma DashWords(c: Config, w: string)
    ensures w != [] && w != "-" && w[0] == '-' ==> !c.IsOperand(w)
    ensures w == [] || w[0] != '-' ==> c.IsOperand(w) && !c.IsTerminator(w)
    ensures c.IsOperand("-") <==> !c.dashListed
    ensures c.IsTerminator(w) <==> |w| == 2 && w[0] == '-' && w[1] == '-'
  {
  }

  /** The words of one kind, in their original order. */
  function Pick(words: seq<string>, kinds: seq<bool>, kind: bool): (r: seq<string>)
    requires |words| == |kinds|
  {
    if words == [] then []
    else (if kinds[0] == kind then [words[0]] else []) + Pick(words[1..], kinds[1..], kind)
  }

  lemma {:induction false} PickAppend(w1: seq<string>, k1: seq<bool>, w2: seq<string>, k2: seq<bool>, kind: bool)
    requires |w1| == |k1| && |w2| == |k2|
    ensures Pick(w1 + w2, k1 + k2, kind) == Pick(w1, k1, kind) + Pick(w2, k2, kind)
  {
    if w1 == [] {
      assert w1 + w2 == w2 && k1 + k2 == k2;
    } else {
      PickAppend(w1[1..], k1[1..], w2, k2, kind);
      assert (w1 + w2)[1..] == w1[1..] + w2;
      assert (k1 + k2)[1..] == k1[1..] + k2;
      var front := if k1[0] == kind then [w1[0]] else [];
      Assoc(front, Pick(w1[1..], k1[1..], kind), Pick(w2, k2, kind));
    }
  }

  lemma {:induction false} PickUniform(words: seq<string>, kinds: seq<bool>, kind: bool)
    requires |words| == |kinds| && forall i :: 0 <= i < |kinds| ==> kinds[i] == kind
    ensures Pick(words, kinds, kind) == words && Pick(words, kinds, !kind) == []
  {
    if words != [] {
      PickUniform(words[1..], kinds[1..], kind);
    }
  }

  lemma Inserted(w: seq<string>, t: seq<string>, f: seq<string>)
    ensures multiset(w + (t + f)) == multiset(w) + multiset(t + f)
    ensures multiset(t + (w + f)) == multiset(w) + multiset(t + f)
  {
  }

  lemma PickStep(words: seq<string>, kinds: seq<bool>)
    requires |words| == |kinds| && words != []
    ensures var w := [words[0]];
            && words == w + words[1..]
            && Pick(words, kinds, true) == (if kinds[0] then w else []) + Pick(words[1..], kinds[1..], true)
            && Pick(words, kinds, false) == (if kinds[0] then [] else w) + Pick(words[1..], kinds[1..], false)
  {
  }

  /** Nothing is lost or duplicated by splitting the words into options and operands. */
  lemma {:induction false} PickIsPartition(words: seq<string>, kinds: seq<bool>)
    requires |words| == |kinds|
    ensures multiset(Pick(words, kinds, true) + Pick(words, kinds, false)) == multiset(words)
  {
    if words != [] {
      PickIsPartition(words[1..], kinds[1..]);
      PickStep(words, kinds);
      hide Pick;
      OneInserted([words[0]], Pick(words[1..], kinds[1..], true), Pick(words[1..], kinds[1..], false), words[1..],
                  kinds[0]);
    }
  }

  lemma OneInserted(w: seq<string>, t: seq<string>, f: seq<string>, rest: seq<string>, first: bool)
    requires multiset(t + f) == multiset(rest)
    ensures multiset(((if first then w else []) + t) + ((if first then [] else w) + f)) == multiset(w + rest)
  {
    Inserted(w, t, f);
    Assoc(w, t, f);
    assert [] + t == t && [] + f == f;
  }

  /** How the scan consumes the words from the front. */
  lemma FrontOptions(c: Config, words: seq<string>, n: nat)
    requires 0 < n <= |words|
    requires if c.IsOperand(words[0]) then c.allArgs && n == 1 else !c.IsTerminator(words[0]) && n == c.Span(words)
    ensures c.Options(words) == words[..n] + c.Options(words[n..])
    ensures c.Operands(words) == c.Operands(words[n..])
  {
    var k := seq(n, _ => true);
    assert words == words[..n] + words[n..] && c.Kinds(words) == k + c.Kinds(words[n..]);
    PickAppend(words[..n], k, words[n..], c.Kinds(words[n..]), true);
    PickAppend(words[..n], k, words[n..], c.Kinds(words[n..]), false);
    PickUniform(words[..n], k, true);
  }

  lemma FrontOperand(c: Config, words: seq<string>)
    requires words != [] && c.IsOperand(words[0]) && !c.allArgs && c.permute
    ensures c.Options(words) == c.Options(words[1..])
    ensures c.Operands(words) == [words[0]] + c.Operands(words[1..])
  {
    assert c.Kinds(words)[1..] == c.Kinds(words[1..]);
  }

  lemma FrontStop(c: Config, words: seq<string>)
    requires words != [] && c.IsOperand(words[0]) && !c.allArgs && !c.permute
    ensures c.Options(words) == [] && c.Operands(words) == words
  {
    PickUniform(words, c.Kinds(words), false);
  }

  lemma FrontTerminator(c: Config, words: seq<string>)
    requires words != [] && !c.IsOperand(words[0]) && c.IsTerminator(words[0])
    ensures c.Options(words) == [words[0]] && c.Operands(words) == words[1..]
  {
    PickUniform(words[1..], c.Kinds(words)[1..], false);
  }

  /** The scanner's globals, with the argument vector as a value. */
  datatype Scan = Scan(argv: seq<string>, optind: nat, start: int, end: int, place: nat) {
    ghost predicate InRange(base: nat) {
      && base <= optind <= |argv|
      && (start == -1 ==> end == -1)
      && (start != -1 ==> base <= start < (if end != -1 then end else optind) <= optind)
    }

    /** The option words read so far. */
    ghost function Read(base: nat): seq<string>
      requires InRange(base)
    {
      if start == -1 then argv[base..optind]
      else if end == -1 then argv[base..start]
      else argv[base..start] + argv[end..optind]
    }

    /** The non-options skipped so far. */
    ghost function Skipped(base: nat): seq<string>
      requires InRange(base)
    {
      if start == -1 then [] else argv[start..if end != -1 then end else optind]
    }

    ghost predicate Valid(c: Config, base: nat, words: seq<string>) {
      && InRange(base)
      && (start != -1 ==> c.permute && !c.allArgs)
      && c.Options(words) == Read(base) + c.Options(argv[optind..])
      && c.Operands(words) == Skipped(base) + c.Operands(argv[optind..])
      && (place == 0 && end != -1 ==> end < optind)
      && (place > 0 ==>
            && optind < |argv| && !c.IsOperand(argv[optind]) && !c.IsTerminator(argv[optind])
            && (start != -1 ==> end != -1))
    }

    /** How many results are still to come. */
    ghost function ToCome(c: Config): nat
      requires optind <= |argv| && (place > 0 ==> optind < |argv|)
    {
      var rest := argv[optind..];
      if place == 0 then c.Results(rest) else place + c.Results(rest[c.Span(rest)..])
    }

    /** The scan is over: options first, operands last, optind between them. */
    ghost predicate Finished(c: Config, base: nat, words: seq<string>) {
      && base <= |argv|
      && argv[base..] == c.Options(words) + c.Operands(words)
      && optind == base + |c.Options(words)|
      && start == -1 == end && place == 0
    }

    /** The exchange of the skipped block with the options read after it. */
    function Permuted(): Scan
      requires 0 <= start < end <= optind <= |argv|
    {
      this.(argv := Exchanged(argv, start, end, optind), start := optind - (end - start), end := -1)
    }
  }

  lemma PermutedKeeps(s: Scan, base: nat)
    requires s.InRange(base) && s.end != -1 && s.end < s.optind
    ensures s.Permuted().InRange(base)
    ensures s.Permuted().Read(base) == s.Read(base) && s.Permuted().Skipped(base) == s.Skipped(base)
    ensures s.Permuted().argv[s.optind..] == s.argv[s.optind..]
    ensures s.Permuted().argv[..base] == s.argv[..base]
  {
  }

  /** Everything is read and what is left of the vector are operands. */
  lemma FinishedWhenRead(c: Config, s: Scan, base: nat, words: seq<string>)
    requires s.InRange(base) && s.end == -1 && s.place == 0
    requires c.Options(words) == s.Read(base) && c.Operands(words) == s.Skipped(base) + s.argv[s.optind..]
    ensures Scan(s.argv, if s.start == -1 then s.optind else s.start, -1, -1, 0).Finished(c, base, words)
  {
    if s.start == -1 {
      assert s.argv[base..] == s.argv[base..s.optind] + s.argv[s.optind..];
    } else {
      assert s.argv[base..] == s.argv[base..s.start] + s.argv[s.start..s.optind] + s.argv[s.optind..];
    }
  }

  /** Skipping one more operand. */
  lemma SkipKeeps(c: Config, s: Scan, base: nat, words: seq<string>)
    requires s.Valid(c, base, words) && s.place == 0 && s.end == -1 && s.optind < |s.argv|
    requires c.IsOperand(s.argv[s.optind]) && c.permute && !c.allArgs
    ensures s.(optind := s.optind + 1, start := if s.start == -1 then s.optind else s.start).Valid(c, base, words)
  {
    var t := s.(optind := s.optind + 1, start := if s.start == -1 then s.optind else s.start);
    var rest := s.argv[s.optind..];
    FrontOperand(c, rest);
    assert t.Skipped(base) == s.Skipped(base) + [rest[0]];
    assert t.argv[t.optind..] == rest[1..];
    assert t.Read(base) == s.Read(base);
    Assoc(s.Skipped(base), [rest[0]], c.Operands(rest[1..]));
  }

  lemma SkippedResults(c: Config, words: seq<string>)
    requires words != [] && c.IsOperand(words[0]) && c.permute && !c.allArgs
    ensures c.Results(words) == c.Results(words[1..])
  {
  }

  lemma AdvanceKeeps(s: Scan, base: nat, n: nat)
    requires s.InRange(base) && s.optind + n <= |s.argv| && (s.start != -1 ==> s.end != -1)
    ensures s.(optind := s.optind + n, place := 0).InRange(base)
    ensures s.(optind := s.optind + n, place := 0).Read(base) == s.Read(base) + s.argv[s.optind..][..n]
    ensures s.(optind := s.optind + n, place := 0).Skipped(base) == s.Skipped(base)
    ensures s.argv[s.optind + n..] == s.argv[s.optind..][n..]
  {
  }

  /** Consuming n option slots. */
  lemma ReadKeeps(c: Config, s: Scan, base: nat, words: seq<string>, n: nat)
    requires s.Valid(c, base, words) && s.optind < |s.argv| && (s.start != -1 ==> s.end != -1)
    requires var rest := s.argv[s.optind..];
             if c.IsOperand(rest[0]) then c.allArgs && n == 1 else !c.IsTerminator(rest[0]) && n == c.Span(rest)
    ensures s.(optind := s.optind + n, place := 0).Valid(c, base, words)
  {
    hide Config.Options, Config.Operands, Config.Kinds, Config.Span, Scan.Read, Scan.Skipped;
    var t := s.(optind := s.optind + n, place := 0);
    var rest := s.argv[s.optind..];
    FrontOptions(c, rest, n);
    AdvanceKeeps(s, base, n);
    Assoc(s.Read(base), rest[..n], c.Options(rest[n..]));
  }

  /** The first option word after skipped operands closes the skipped block. */
  lemma CloseKeeps(c: Config, s: Scan, base: nat, words: seq<string>, place: nat)
    requires s.Valid(c, base, words) && s.place == 0 && s.optind < |s.argv|
    requires !c.IsOperand(s.argv[s.optind]) && !c.IsTerminator(s.argv[s.optind]) && place > 0
    ensures s.(end := if s.start != -1 && s.end == -1 then s.optind else s.end, place := place).Valid(c, base, words)
  {
    var t := s.(end := if s.start != -1 && s.end == -1 then s.optind else s.end, place := place);
    assert t.Read(base) == s.Read(base);
  }

  /** Another letter of the same word. */
  lemma LetterKeeps(c: Config, s: Scan, base: nat, words: seq<string>)
    requires s.Valid(c, base, words) && s.place > 1
    ensures s.(place := s.place - 1).Valid(c, base, words)
  {
    assert s.(place := s.place - 1).Read(base) == s.Read(base);
    assert s.(place := s.place - 1).Skipped(base) == s.Skipped(base);
  }

  /** Reading "--": the skipped block is exchanged with all options up to and including it. */
  lemma TerminatorFinishes(c: Config, s: Scan, base: nat, words: seq<string>)
    requires s.Valid(c, base, words) && s.place == 0 && s.optind < |s.argv|
    requires !c.IsOperand(s.argv[s.optind]) && c.IsTerminator(s.argv[s.optind])
    ensures var t := s.(end := if s.start != -1 && s.end == -1 then s.optind else s.end, optind := s.optind + 1);
            var u := if t.end != -1 then t.Permuted() else t;
            Scan(u.argv, if u.start == -1 then u.optind else u.start, -1, -1, 0).Finished(c, base, words)
  {
    hide Config.Options, Config.Operands, Config.Kinds, Exchanged;
    var rest := s.argv[s.optind..];
    FrontTerminator(c, rest);
    var t := s.(end := if s.start != -1 && s.end == -1 then s.optind else s.end, optind := s.optind + 1);
    assert t.Read(base) == s.Read(base) + [rest[0]];
    assert t.argv[t.optind..] == rest[1..];
    assert t.Skipped(base) == s.Skipped(base);
    if t.end != -1 {
      PermutedKeeps(t, base);
      FinishedWhenRead(c, t.Permuted(), base, words);
    } else {
      FinishedWhenRead(c, t, base, words);
    }
  }

  datatype Result = Done | Option | InOrder

  class Getopt {
    const cfg: Config
    const argv: array<string>
    var optind: nat
    var optreset: bool
    var place: nat
    var nonoptStart: int
    var nonoptEnd: int

    constructor (cfg: Config, argv: array<string>)
      ensures this.cfg == cfg && this.argv == argv
      ensures optind == 1 && !optreset && View() == Scan(argv[..], 1, -1, -1, 0)
    {
      this.cfg, this.argv := cfg, argv;
      optind, optreset, place, nonoptStart, nonoptEnd := 1, false, 0, -1, -1;
    }

    ghost function View(): Scan
      reads this, argv
    {
      Scan(argv[..], optind, nonoptStart, nonoptEnd, place)
    }

    ghost function ToCome(): nat
      requires optind <= argv.Length && (place > 0 ==> optind < argv.Length)
      reads this, argv
    {
      View().ToCome(cfg)
    }

    /** The caller asked to start over, by optreset or by setting optind to 0. */
    ghost predicate Restarting()
      reads this
    {
      optreset || optind == 0
    }

    /** words are the arguments from slot base on, in their order before the scan. */
    ghost predicate Scanning(base: nat, words: seq<string>)
      reads this, argv
    {
      if Restarting() then base == Max(optind, 1) <= argv.Length && words == argv[base..]
      else 1 <= base && View().Valid(cfg, base, words)
    }

    /** The scan is mid-vector, with the next word not yet looked at. */
    ghost predicate Between(base: nat, words: seq<string>)
      reads this, argv
    {
      1 <= base && View().Valid(cfg, base, words) && place == 0 && !Restarting()
    }

    /** Moves the skipped operands behind the options read since. */
    method PermuteSkipped()
      requires 0 <= nonoptStart < nonoptEnd < optind <= argv.Length
      modifies argv
      ensures argv[..] == old(View().Permuted()).argv
    {
      Permute(argv, nonoptStart, nonoptEnd, optind);
    }

    method EndOfVector(ghost base: nat, ghost words: seq<string>)
      requires Between(base, words) && optind == argv.Length
      modifies argv, `optind, `nonoptStart, `nonoptEnd
      ensures argv[..base] == old(argv[..base])
      ensures View().Finished(cfg, base, words) && optind >= base && old(ToCome()) == 0
    {
      ghost var s := View();
      assert argv[optind..] == [];
      if nonoptEnd != -1 {
        PermutedKeeps(s, base);
        PermuteSkipped();
        FinishedWhenRead(cfg, s.Permuted(), base, words);
        optind := optind - (nonoptEnd - nonoptStart);
      } else {
        FinishedWhenRead(cfg, s, base, words);
        if nonoptStart != -1 {
          optind := nonoptStart;
        }
      }
      nonoptStart, nonoptEnd := -1, -1;
    }

    method SkipOperand(ghost base: nat, ghost words: seq<string>)
      requires Between(base, words) && optind < argv.Length
      requires cfg.IsOperand(argv[optind]) && cfg.permute && !cfg.allArgs
      modifies argv, `optind, `nonoptStart, `nonoptEnd
      ensures argv[..base] == old(argv[..base])
      ensures Between(base, words) && optind == old(optind) + 1 && ToCome() == old(ToCome())
    {
      hide Scan.Read, Scan.Skipped, Config.Options, Config.Operands, Config.Kinds, Exchanged;
      ghost var s := View();
      if nonoptStart == -1 {
        nonoptStart := optind;
      } else if nonoptEnd != -1 {
        PermutedKeeps(s, base);
        PermuteSkipped();
        nonoptStart := optind - (nonoptEnd - nonoptStart);
        nonoptEnd := -1;
      }
      ghost var u := if s.end != -1 then s.Permuted() else s;
      SkipKeeps(cfg, u, base, words);
      SkippedResults(cfg, s.argv[s.optind..]);
      assert s.argv[s.optind..][1..] == u.argv[u.optind + 1..];
      optind := optind + 1;
      assert View() == u.(optind := u.optind + 1, start := if u.start == -1 then u.optind else u.start);
    }

    method ReadTerminator(ghost base: nat, ghost words: seq<string>)
      requires Between(base, words) && optind < argv.Length
      requires !cfg.IsOperand(argv[optind]) && cfg.IsTerminator(argv[optind])
      modifies argv, `optind, `nonoptStart, `nonoptEnd
      ensures argv[..base] == old(argv[..base])
      ensures View().Finished(cfg, base, words) && optind >= base && old(ToCome()) == 0
    {
      hide Scan.Read, Scan.Skipped, Config.Options, Config.Operands, Config.Kinds, Exchanged;
      TerminatorFinishes(cfg, View(), base, words);
      if nonoptStart != -1 && nonoptEnd == -1 {
        nonoptEnd := optind;
      }
      optind := optind + 1;
      if nonoptEnd != -1 {
        PermutedKeeps(View(), base);
        PermuteSkipped();
        optind := optind - (nonoptEnd - nonoptStart);
      } else {
        assert nonoptStart == -1;
      }
      nonoptStart, nonoptEnd := -1, -1;
    }

    /** Starts on an option word: closes the block of skipped operands before it. */
    method OpenWord(ghost base: nat, ghost words: seq<string>)
      requires Between(base, words) && optind < argv.Length
      requires !cfg.IsOperand(argv[optind]) && !cfg.IsTerminator(argv[optind])
      modifies `nonoptEnd, `place
      ensures View().Valid(cfg, base, words) && place > 0 && ToCome() == old(ToCome())
    {
      ghost var s := View();
      CloseKeeps(cfg, s, base, words, cfg.Letters(argv[optind]));
      if nonoptStart != -1 && nonoptEnd == -1 {
        nonoptEnd := optind;
      }
      place := cfg.Letters(argv[optind]);
      assert View() == s.(end := if s.start != -1 && s.end == -1 then s.optind else s.end, place := place);
    }

    /** Moves past an option word and its arguments. */
    method Consume(ghost base: nat, ghost words: seq<string>, n: nat)
      requires View().Valid(cfg, base, words) && optind < argv.Length && (nonoptStart != -1 ==> nonoptEnd != -1)
      requires var rest := argv[optind..];
               if cfg.IsOperand(rest[0]) then cfg.allArgs && n == 1
               else !cfg.IsTerminator(rest[0]) && n == cfg.Span(rest)
      modifies `optind, `place
      ensures View().Valid(cfg, base, words) && place == 0 && optind == old(optind) + n && n > 0
      ensures argv[optind..] == old(argv[optind..][n..])
    {
      ghost var s := View();
      ReadKeeps(cfg, s, base, words, n);
      optind, place := optind + n, 0;
      assert View() == s.(optind := s.optind + n, place := 0);
    }

    /** The part before the label start: a restart drops what an earlier scan left behind. */
    method Restart(ghost base: nat, ghost words: seq<string>)
      requires Scanning(base, words)
      modifies `optind, `optreset, `place, `nonoptStart, `nonoptEnd
      ensures 1 <= base && View().Valid(cfg, base, words) && !Restarting()
      ensures if old(Restarting()) then place == 0 else place == old(place) && optind == old(optind)
      ensures ToCome() == if old(Restarting()) then cfg.Results(words) else old(ToCome())
    {
      if optind == 0 {
        optind, optreset := 1, true;
      }
      if optreset {
        nonoptStart, nonoptEnd := -1, -1;
        optreset, place := false, 0;
      }
    }

    /** Stops the scan without reordering. */
    method StopAtOperand(ghost base: nat, ghost words: seq<string>)
      requires Between(base, words) && optind < argv.Length
      requires cfg.IsOperand(argv[optind]) && !cfg.permute && !cfg.allArgs
      ensures View().Finished(cfg, base, words) && ToCome() == 0
    {
      FrontStop(cfg, argv[optind..]);
      FinishedWhenRead(cfg, View(), base, words);
    }

    /** The loop around the label start. */
    method SkipOperands(ghost base: nat, ghost words: seq<string>)
      requires Between(base, words) && cfg.permute && !cfg.allArgs
      modifies argv, `optind, `nonoptStart, `nonoptEnd
      ensures argv[..base] == old(argv[..base])
      ensures Between(base, words) && optind >= old(optind) && ToCome() == old(ToCome())
      ensures optind < argv.Length ==> !cfg.IsOperand(argv[optind])
    {
      while optind < argv.Length && cfg.IsOperand(argv[optind])
        invariant Between(base, words)
        invariant argv[..base] == old(argv[..base]) && optind >= old(optind) && ToCome() == old(ToCome())
        decreases argv.Length - optind
      {
        SkipOperand(base, words);
      }
    }

    /** Returns one option of the current word; the last one also moves past the word. */
    method ReadLetter(ghost base: nat, ghost words: seq<string>)
      requires View().Valid(cfg, base, words) && place > 0
      modifies `optind, `place
      ensures View().Valid(cfg, base, words)
      ensures if old(place) == 1 then place == 0 && optind > old(optind)
              else place == old(place) - 1 && optind == old(optind)
      ensures ToCome() == old(ToCome()) - 1
    {
      if place == 1 {
        Consume(base, words, cfg.Span(argv[optind..]));
      } else {
        ghost var s := View();
        LetterKeeps(cfg, s, base, words);
        place := place - 1;
        assert View() == s.(place := s.place - 1);
      }
    }

    /** Looks for the next word to return: the end, an operand in order, or an option word to open. */
    method Look(ghost base: nat, ghost words: seq<string>) returns (r: Result)
      requires Between(base, words)
      modifies argv, `optind, `place, `nonoptStart, `nonoptEnd
      ensures argv[..base] == old(argv[..base])
      ensures r == Done ==> View().Finished(cfg, base, words)
      ensures r == InOrder ==> cfg.allArgs && View().Valid(cfg, base, words) && optind > old(optind)
      ensures r == Option ==> View().Valid(cfg, base, words) && place > 0 && optind >= old(optind)
      ensures r == Done ==> old(ToCome()) == 0
      ensures r != Done ==> ToCome() == old(ToCome()) - if r == InOrder then 1 else 0
      ensures optind >= base
    {
      if cfg.permute && !cfg.allArgs {
        SkipOperands(base, words);
      }
      if optind >= argv.Length {
        EndOfVector(base, words);
        return Done;
      }
      if cfg.IsOperand(argv[optind]) {
        if cfg.allArgs {
          Consume(base, words, 1);
          return InOrder;
        }
        StopAtOperand(base, words);
        return Done;
      }
      if cfg.IsTerminator(argv[optind]) {
        ReadTerminator(base, words);
        return Done;
      }
      OpenWord(base, words);
      r := Option;
    }

    /** One call: skips operands up to the next option, and returns it or that the scan is over. */
    method Next(ghost base: nat, ghost words: seq<string>) returns (r: Result)
      requires Scanning(base, words)
      modifies this, argv
      ensures argv[..base] == old(argv[..base])
      ensures !Restarting()
      ensures r == Done ==> View().Finished(cfg, base, words)
      ensures r != Done ==> View().Valid(cfg, base, words) && 1 <= base
      ensures r != Done && !old(Restarting()) ==>
                || optind > old(optind)
                || (optind == old(optind) && (old(place) == 0 < place || 0 < place < old(place)))
      ensures r == InOrder ==> cfg.allArgs
      ensures var before := if old(Restarting()) then cfg.Results(words) else old(ToCome());
              if r == Done then before == 0 else ToCome() == before - 1
    {
      hide Scan.Read, Scan.Skipped, Scan.Finished, Config.Options, Config.Operands, Config.Kinds;
      Restart(base, words);
      r := Option;
      if place == 0 {
        r := Look(base, words);
      }
      if r == Option {
        ReadLetter(base, words);
      }
    }

    /** The calling loop: scans to the end. */
    method ScanAll(ghost base: nat, ghost words: seq<string>) returns (results: nat)
      requires Scanning(base, words)
      modifies this, argv
      ensures argv[..base] == old(argv[..base])
      ensures argv[base..] == cfg.Options(words) + cfg.Operands(words)
      ensures optind == base + |cfg.Options(words)|
      ensures results == if old(Restarting()) then cfg.Results(words) else old(ToCome())
    {
      ghost var all := if Restarting() then cfg.Results(words) else ToCome();
      results := 0;
      var r := Next(base, words);
      while r != Done
        invariant if r == Done then results == all
                  else optind <= argv.Length && (place > 0 ==> optind < argv.Length) && results + 1 + ToCome() == all
        invariant !Restarting() && argv[..base] == old(argv[..base])
        invariant if r == Done then View().Finished(cfg, base, words) else 1 <= base && View().Valid(cfg, base, words)
        decreases r != Done, argv.Length - optind, place == 0, place
      {
        results := results + 1;
        r := Next(base, words);
      }
    }
  }
}
