/** The URL parser and printer (common/SoapyURLUtils.cpp). */
module Url {

  const MARK: string := "://"

  datatype Url = Url(scheme: string, node: string, service: string)

  // ---------- printing ----------

  /** The node, in brackets if it has a colon, and the service. */
  function PrintRest(u: Url): string {
    (if ':' in u.node then "[" + u.node + "]" else u.node) + (if u.service != "" then ":" + u.service else "")
  }

  function Print(u: Url): string {
    (if u.scheme != "" then u.scheme + MARK else "") + PrintRest(u)
  }

  /** Nothing is printed of what a URL does not have. */
  lemma PrintLength(u: Url)
    ensures |Print(u)| == (if u.scheme == "" then 0 else |u.scheme| + 3) + |u.node| + (if ':' in u.node then 2 else 0)
                          + if u.service == "" then 0 else |u.service| + 1
  {
  }

  lemma PrintedUrls()
    ensures Print(Url("tcp", "::1", "55132")) == "tcp://[::1]:55132"
    ensures Print(Url("udp", "pi", "")) == "udp://pi" && Print(Url("", "pi", "80")) == "pi:80"
  {
    assert "::1"[0] == ':';
  }

  // ---------- parsing ----------

  predicate MarkAt(s: string, i: nat) {
    i + 3 <= |s| && s[i..i + 3] == MARK
  }

  ghost predicate HasMark(s: string) {
    exists i: nat :: MarkAt(s, i)
  }

  /** Where the first mark is, or -1. */
  function FirstMark(s: string): (p: int)
    ensures -1 <= p
    ensures p == -1 ==> !HasMark(s)
    ensures p >= 0 ==> MarkAt(s, p) && forall i: nat :: i < p ==> !MarkAt(s, i)
  {
    if |s| < 3 then -1
    else if s[..3] == MARK then 0
    else
      var q := FirstMark(s[1..]);
      MarksShift(s);
      if q < 0 then -1 else q + 1
  }

  lemma MarksShift(s: string)
    requires s != ""
    ensures forall i: nat :: i > 0 ==> (MarkAt(s, i) <==> MarkAt(s[1..], i - 1))
    ensures |s| >= 3 ==> (MarkAt(s, 0) <==> s[..3] == MARK)
  {
    forall i: nat | i > 0 ensures MarkAt(s, i) <==> MarkAt(s[1..], i - 1) {
      if i + 3 <= |s| {
        assert s[i..i + 3] == s[1..][i - 1..i - 1 + 3];
      }
    }
    assert |s| >= 3 ==> s[0..3] == s[..3];
  }

  datatype Parts = Parts(node: string, service: string)

  /** The scan over what follows the scheme, from a state of the scan on. */
  function Scan(s: string, inBracket: bool, inService: bool): Parts {
    if s == "" then Parts("", "")
    else if inBracket && s[0] == ']' then Scan(s[1..], false, inService)
    else if !inBracket && s[0] == '[' then Scan(s[1..], true, inService)
    else if inBracket then NodeFirst([s[0]], Scan(s[1..], inBracket, inService))
    else if inService then ServiceFirst([s[0]], Scan(s[1..], inBracket, inService))
    else if s[0] == ':' then Scan(s[1..], inBracket, true)
    else NodeFirst([s[0]], Scan(s[1..], inBracket, inService))
  }

  function NodeFirst(a: string, p: Parts): Parts {
    Parts(a + p.node, p.service)
  }

  function ServiceFirst(a: string, p: Parts): Parts {
    Parts(p.node, a + p.service)
  }

  function Parse(url: string): Url {
    var p := FirstMark(url);
    var parts := Scan(if p >= 0 then url[p + 3..] else url, false, false);
    Url(if p >= 0 then url[..p] else "", parts.node, parts.service)
  }

  /** The URL object. */
  class SoapyURL {
    var scheme: string
    var node: string
    var service: string

    ghost function View(): Url
      reads this
    {
      Url(scheme, node, service)
    }

    constructor FromParts(scheme: string, node: string, service: string)
      ensures View() == Url(scheme, node, service)
    {
      this.scheme, this.node, this.service := scheme, node, service;
    }

    constructor FromString(url: string)
      ensures View() == Parse(url)
    {
      scheme, node, service := "", "", "";
      new;
      var rest := url;
      var schemeEnd := FirstMark(url);
      if schemeEnd >= 0 {
        scheme := url[..schemeEnd];
        rest := url[schemeEnd + 3..];
      }
      ScanRest(rest);
    }

    /** The loop over what follows the scheme. */
    method ScanRest(rest: string)
      requires node == "" && service == ""
      modifies `node, `service
      ensures Parts(node, service) == Scan(rest, false, false)
    {
      var inBracket, inService := false, false;
      for i := 0 to |rest|
        invariant Joined(Parts(node, service), Scan(rest[i..], inBracket, inService)) == Scan(rest, false, false)
      {
        assert rest[i..][1..] == rest[i + 1..];
        var ch := rest[i];
        if inBracket && ch == ']' {
          inBracket := false;
          continue;
        }
        if !inBracket && ch == '[' {
          inBracket := true;
          continue;
        }
        if inBracket {
          JoinedNode(Parts(node, service), ch, Scan(rest[i + 1..], inBracket, inService));
          node := node + [ch];
          continue;
        }
        if inService {
          JoinedService(Parts(node, service), ch, Scan(rest[i + 1..], inBracket, inService));
          service := service + [ch];
          continue;
        }
        if ch == ':' {
          inService := true;
          continue;
        }
        JoinedNode(Parts(node, service), ch, Scan(rest[i + 1..], inBracket, inService));
        node := node + [ch];
      }
      assert rest[|rest|..] == "";
    }

    /** toString. */
    method ToString() returns (url: string)
      ensures url == Print(View())
    {
      url := "";
      if scheme != "" {
        url := url + scheme + "://";
      }
      if ':' in node {
        url := url + "[" + node + "]";
      } else {
        url := url + node;
      }
      if service != "" {
        url := url + ":" + service;
      }
      assert url == (if scheme != "" then scheme + MARK else "") + PrintRest(View());
    }
  }

  function Joined(p: Parts, q: Parts): Parts {
    Parts(p.node + q.node, p.service + q.service)
  }

  lemma JoinedNode(p: Parts, ch: char, q: Parts)
    ensures Joined(p, NodeFirst([ch], q)) == Joined(Parts(p.node + [ch], p.service), q)
  {
    assert p.node + ([ch] + q.node) == (p.node + [ch]) + q.node;
  }

  lemma JoinedService(p: Parts, ch: char, q: Parts)
    ensures Joined(p, ServiceFirst([ch], q)) == Joined(Parts(p.node, p.service + [ch]), q)
  {
    assert p.service + ([ch] + q.service) == (p.service + [ch]) + q.service;
  }

  // ---------- what the scan keeps ----------

  /** Every character is kept at most once, and a bracket that opens or closes is dropped. */
  lemma {:induction false} ScanKeeps(s: string, inBracket: bool, inService: bool)
    ensures var p := Scan(s, inBracket, inService);
            && |p.node| + |p.service| <= |s|
            && ((if inBracket then ']' in s else '[' in s) ==> |p.node| + |p.service| < |s|)
            && (inBracket && ']' !in s ==> p == Parts(s, ""))
            && (!inBracket && inService && '[' !in s ==> p == Parts("", s))
  {
    if s != "" {
      var t := s[1..];
      assert s == [s[0]] + t;
      ScanKeeps(t, inBracket, inService);
      ScanKeeps(t, !inBracket, inService);
      ScanKeeps(t, inBracket, true);
    }
  }

  predicate Plain(s: string) {
    ':' !in s && '[' !in s
  }

  lemma {:induction false} ScanPlain(a: string, s: string)
    requires Plain(a)
    ensures Scan(a + s, false, false) == NodeFirst(a, Scan(s, false, false))
  {
    if a == "" {
      assert a + s == s;
    } else {
      assert a == [a[0]] + a[1..] && (a + s)[1..] == a[1..] + s;
      ScanPlain(a[1..], s);
      assert [a[0]] + (a[1..] + Scan(s, false, false).node) == a + Scan(s, false, false).node;
    }
  }

  lemma {:induction false} ScanBracketed(a: string, s: string)
    requires ']' !in a
    ensures Scan(a + s, true, false) == NodeFirst(a, Scan(s, true, false))
  {
    if a == "" {
      assert a + s == s;
    } else {
      assert a == [a[0]] + a[1..] && (a + s)[1..] == a[1..] + s;
      ScanBracketed(a[1..], s);
      assert [a[0]] + (a[1..] + Scan(s, true, false).node) == a + Scan(s, true, false).node;
    }
  }

  // ---------- when parsing undoes printing ----------

  /** After the first closing bracket of s there are only closing brackets. */
  ghost predicate ClosesAtEnd(s: string) {
    forall i, j :: 0 <= i < j < |s| && s[i] == ']' ==> s[j] == ']'
  }

  ghost predicate Printable(u: Url) {
    && !HasMark(if u.scheme != "" then u.scheme else PrintRest(u))
    && (if ':' in u.node then ClosesAtEnd(u.node) else '[' !in u.node)
    && '[' !in u.service
  }

  function PrintService(service: string): string {
    if service != "" then ":" + service else ""
  }

  /** Behind the node, the service comes back exactly when it opens no bracket. */
  lemma ServiceReturns(service: string)
    ensures Scan(PrintService(service), false, false) == Parts("", service) <==> '[' !in service
    ensures var p := Scan(PrintService(service), false, false);
            '[' in service ==> |p.node| + |p.service| < |service|
  {
    if service != "" {
      assert PrintService(service)[1..] == service;
      ScanKeeps(service, false, true);
    }
  }

  /** The first character of s that is one of a and b, or the end. */
  function FirstOf(s: string, a: char, b: char): (n: nat)
    ensures n <= |s| && a !in s[..n] && b !in s[..n]
    ensures n < |s| ==> s[n] == a || s[n] == b
  {
    if s == "" || s[0] == a || s[0] == b then 0
    else
      var n := FirstOf(s[1..], a, b) + 1;
      assert s[..n] == [s[0]] + s[1..][..n - 1];
      n
  }

  lemma PlainNode(node: string, service: string)
    requires ':' !in node
    ensures Scan(node + PrintService(service), false, false) == Parts(node, service)
         <==> '[' !in node && '[' !in service
  {
    hide Scan, PrintService;
    var t := PrintService(service);
    var q := FirstOf(node, '[', '[');
    assert node + t == node[..q] + (node[q..] + t);
    assert forall c :: c in node[..q] ==> c in node;
    ScanPlain(node[..q], node[q..] + t);
    if q == |node| {
      assert node[q..] + t == t && node[..q] == node;
      ServiceReturns(service);
    } else {
      BracketInNode(node, q, service);
    }
  }

  lemma BracketInNode(node: string, q: nat, service: string)
    requires q < |node| && node[q] == '['
    ensures NodeFirst(node[..q], Scan(node[q..] + PrintService(service), false, false)) != Parts(node, service)
    ensures '[' in node
  {
    var t := PrintService(service);
    var r := node[q + 1..] + t;
    assert (node[q..] + t)[1..] == r && (node[q..] + t)[0] == '[';
    ScanKeeps(r, true, false);
    var x := Scan(r, true, false);
    assert Scan(node[q..] + t, false, false) == x;
    hide Scan;
    assert |node[..q] + x.node| == q + |x.node|;
  }

  ghost predicate AllClosing(m: string) {
    forall j :: 0 <= j < |m| ==> m[j] == ']'
  }

  lemma {:induction false} ShiftedBrackets(m: string)
    requires m + "]" == "]" + m
    ensures AllClosing(m)
  {
    if m != "" {
      assert (m + "]")[0] == ("]" + m)[0];
      assert m == "]" + m[1..];
      assert m + "]" == "]" + (m[1..] + "]");
      assert (m + "]")[1..] == m[1..] + "]" && ("]" + m)[1..] == m;
      ShiftedBrackets(m[1..]);
    }
  }

  /** The rest of a bracketed node after its first closing bracket. */
  lemma AfterBracket(front: string, m: string, service: string)
    ensures var p := NodeFirst(front, Scan(m + "]" + PrintService(service), false, false));
            p == Parts(front + "]" + m, service) <==> AllClosing(m) && '[' !in service
  {
    hide Scan, PrintService, AllClosing;
    var q, t := FirstOf(m, '[', ':'), PrintService(service);
    if q == |m| {
      assert m[..q] == m;
      PlainAfterBracket(m, service);
      NodesEqual(front, m, service);
    } else {
      Regroup(m, q, "]" + t);
      assert m + "]" + t == m + ("]" + t) && m[q..] + "]" + t == m[q..] + ("]" + t);
      ScanPlain(m[..q], m[q..] + "]" + t);
      SpecialAfterBracket(front, m, q, service);
    }
  }

  lemma Regroup(m: string, q: nat, t: string)
    requires q <= |m|
    ensures m[..q] + (m[q..] + t) == m + t
  {
  }

  lemma PlainAfterBracket(m: string, service: string)
    requires Plain(m)
    ensures Scan(m + "]" + PrintService(service), false, false)
         == NodeFirst(m + "]", Scan(PrintService(service), false, false))
  {
    ScanPlain(m + "]", PrintService(service));
  }

  /** A colon or an opening bracket there is dropped for good. */
  lemma SpecialAfterBracket(front: string, m: string, q: nat, service: string)
    requires q < |m| && (m[q] == '[' || m[q] == ':')
    ensures !AllClosing(m)
    ensures NodeFirst(front, NodeFirst(m[..q], Scan(m[q..] + "]" + PrintService(service), false, false)))
              != Parts(front + "]" + m, service)
  {
    var t := PrintService(service);
    var s, r := m[q..] + "]" + t, m[q + 1..] + "]" + t;
    assert s[1..] == r && s[0] == m[q];
    ScanKeeps(r, true, false);
    ScanKeeps(r, false, true);
    assert r[|m[q + 1..]|] == ']';
    var x := Scan(s, false, false);
    assert x == if m[q] == '[' then Scan(r, true, false) else Scan(r, false, true);
    hide Scan;
    assert |front + (m[..q] + x.node)| == |front| + q + |x.node|;
    assert |front + "]" + m| == |front| + 1 + |m|;
  }

  lemma NodesEqual(front: string, m: string, service: string)
    requires Plain(m)
    ensures var p := NodeFirst(front, NodeFirst(m + "]", Scan(PrintService(service), false, false)));
            p == Parts(front + "]" + m, service) <==> AllClosing(m) && '[' !in service
  {
    var x := Scan(PrintService(service), false, false);
    var p := NodeFirst(front, NodeFirst(m + "]", x));
    ServiceReturns(service);
    if p == Parts(front + "]" + m, service) {
      assert |p.node| == |front| + |m| + 1 + |x.node|;
      assert x.node == "";
      assert p.node[|front|..] == m + "]" && (front + "]" + m)[|front|..] == "]" + m;
      ShiftedBrackets(m);
    }
    if AllClosing(m) {
      assert m + "]" == "]" + m;
      assert front + (m + "]" + "") == front + "]" + m;
    }
  }

  lemma BracketedNode(node: string, service: string)
    requires ':' in node
    ensures Scan("[" + node + "]" + PrintService(service), false, false) == Parts(node, service) <==>
              ClosesAtEnd(node) && '[' !in service
  {
    hide Scan, PrintService, ClosesAtEnd;
    var p, t := FirstOf(node, ']', ']'), PrintService(service);
    ScanOpened(node, p, t);
    if p == |node| {
      assert node[..p] == node && "" + t == t;
      ServiceReturns(service);
      NoBracketCloses(node);
    } else {
      var m := node[p + 1..];
      assert node == node[..p] + "]" + m;
      AfterBracket(node[..p], m, service);
      FirstBracketCloses(node, p);
    }
  }

  /** The scan of a bracketed node up to the first closing bracket, the node's own or the printed one. */
  lemma ScanOpened(node: string, p: nat, t: string)
    requires p <= |node| && ']' !in node[..p] && (p < |node| ==> node[p] == ']')
    ensures Scan("[" + node + "]" + t, false, false) ==
              NodeFirst(node[..p], Scan(if p == |node| then t else node[p + 1..] + "]" + t, false, false))
  {
    var s, r := "[" + node + "]" + t, node[p..] + "]" + t;
    assert s[1..] == node[..p] + r && s[0] == '[' && r[0] == ']';
    assert r[1..] == if p == |node| then t else node[p + 1..] + "]" + t;
    ScanBracketed(node[..p], r);
  }

  lemma NoBracketCloses(node: string)
    requires ']' !in node
    ensures ClosesAtEnd(node)
  {
  }

  lemma FirstBracketCloses(node: string, p: nat)
    requires p < |node| && node[p] == ']' && ']' !in node[..p]
    ensures ClosesAtEnd(node) <==> AllClosing(node[p + 1..])
  {
    var m := node[p + 1..];
    assert forall i :: 0 <= i < p ==> node[..p][i] == node[i];
    assert forall j :: 0 <= j < |m| ==> m[j] == node[p + 1 + j];
    if AllClosing(m) {
      forall i, j | 0 <= i < j < |node| && node[i] == ']' ensures node[j] == ']' {
        assert i >= p;
        assert m[j - p - 1] == ']';
      }
    }
  }

  lemma RestReturns(u: Url)
    ensures Scan(PrintRest(u), false, false) == Parts(u.node, u.service) <==>
              (if ':' in u.node then ClosesAtEnd(u.node) else '[' !in u.node) && '[' !in u.service
  {
    if ':' in u.node {
      BracketedNode(u.node, u.service);
    } else {
      PlainNode(u.node, u.service);
    }
  }

  lemma MarkChars(s: string, i: nat)
    ensures MarkAt(s, i) <==> i + 3 <= |s| && s[i] == ':' && s[i + 1] == '/' && s[i + 2] == '/'
  {
    if i + 3 <= |s| {
      var m := s[i..i + 3];
      assert m[0] == s[i] && m[1] == s[i + 1] && m[2] == s[i + 2];
      assert m == MARK <==> m[0] == ':' && m[1] == '/' && m[2] == '/';
    }
  }

  lemma RestBegins(u: Url)
    requires PrintRest(u) != "" && PrintRest(u)[0] == ':'
    ensures u.node == "" && |u.service| == |PrintRest(u)| - 1
  {
    BeginsOtherwise(u);
  }

  lemma BeginsOtherwise(u: Url)
    ensures ':' in u.node ==> PrintRest(u)[0] == '['
    ensures ':' !in u.node && u.node != "" ==> PrintRest(u)[0] != ':'
  {
    if u.node != "" {
      assert u.node[0] in u.node;
      assert ':' !in u.node ==> PrintRest(u)[0] == u.node[0];
    }
  }

  /** A mark in scheme + MARK + rest comes before the printed one exactly when the scheme has one. */
  lemma MarkOfScheme(scheme: string, rest: string)
    ensures FirstMark(scheme + MARK + rest) == |scheme| <==> !HasMark(scheme)
    ensures 0 <= FirstMark(scheme + MARK + rest) <= |scheme|
  {
    var s := scheme + MARK + rest;
    assert s[|scheme|..|scheme| + 3] == MARK;
    assert MarkAt(s, |scheme|);
    forall i: nat | i < |scheme| ensures MarkAt(s, i) <==> MarkAt(scheme, i) {
      MarkChars(s, i);
      MarkChars(scheme, i);
    }
    if HasMark(scheme) {
      var i: nat :| MarkAt(scheme, i);
      assert MarkAt(s, i);
    }
  }

  /** Without a scheme, a mark in the rest is taken for the end of one, and something is lost. */
  lemma MarkOfRest(u: Url)
    requires u.scheme == "" && HasMark(PrintRest(u))
    ensures Parse(Print(u)) != u
  {
    var s := PrintRest(u);
    assert Print(u) == s;
    var p := FirstMark(s);
    assert p >= 0;
    if p == 0 {
      MarkChars(s, 0);
      RestBegins(u);
      ScanKeeps(s[3..], false, false);
    } else {
      assert |Parse(s).scheme| == p;
    }
  }

  /** A URL that does not come back: a node with an opening bracket. */
  lemma BracketIsLost()
    ensures Parse(Print(Url("", "[", ""))) == Url("", "", "")
  {
    assert Print(Url("", "[", "")) == "[";
    assert Scan("[", false, false) == Scan("", true, false);
  }

  /** Parsing undoes printing exactly for the printable URLs. */
  lemma PrintParses(u: Url)
    ensures Parse(Print(u)) == u <==> Printable(u)
  {
    hide Scan;
    RestReturns(u);
    if u.scheme != "" {
      var s := u.scheme + MARK + PrintRest(u);
      MarkOfScheme(u.scheme, PrintRest(u));
      var p := FirstMark(s);
      if p == |u.scheme| {
        assert s[..p] == u.scheme && s[p + 3..] == PrintRest(u);
      } else {
        assert |s[..p]| == p;
      }
    } else {
      assert Print(u) == PrintRest(u);
      if HasMark(PrintRest(u)) {
        MarkOfRest(u);
      }
    }
  }
}
