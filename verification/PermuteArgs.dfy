/** gcd and permute_args of server/msvc/getopt.h: exchange of two adjacent blocks of an
    argument vector in place, by walking gcd-many cycles. */
module PermuteArgs {
  import opened Arithmetic

  /** Where the cycle walk goes from relative position p, for block lengths nn and no. */
  function Hop(nn: nat, no: nat, p: nat): (q: nat)
    requires p < nn + no
    ensures q < nn + no
  {
    if p >= nn then p - nn else p + no
  }

  /** The block lengths in units of their gcd g, and an inverse u of no/g modulo the cycle length. */
  datatype Shape = Shape(g: nat, m: nat, n: nat, u: int, v: int) {
    function Len(): nat { m + n }

    ghost predicate Valid(nn: nat, no: nat) {
      && g > 0 && m > 0 && n > 0
      && nn == g * m && no == g * n
      && u * n == 1 + v * Len()
    }

    /** The index within its class of the position reached after k hops. */
    function At(k: nat): nat
      requires Len() > 0
    {
      (m + k * n) % Len()
    }

    /** The hop count that reaches index i of the class. */
    function Count(i: nat): nat
      requires Len() > 0
    {
      ((i - m) * u) % Len()
    }
  }

  lemma GetShape(nn: nat, no: nat) returns (s: Shape)
    requires nn > 0 && no > 0
    ensures s.Valid(nn, no) && s.g == Gcd(nn, no)
    ensures (nn + no) / s.g == s.Len() && nn + no == s.g * s.Len()
  {
    var m, n, x, y := Bezout(nn, no);
    var g := Gcd(nn, no);
    assert m > 0 && n > 0;
    assert x * m + y * n == 1 by {
      calc {
        g * (x * m + y * n);
        { Distribute(g, x * m, y * n); MulAssoc(g, x, m); MulAssoc(x, g, m); MulAssoc(g, y, n); MulAssoc(y, g, n); }
        x * nn + y * no;
        g;
      }
      NonzeroMultiple(g, x * m + y * n - 1);
      Distribute(g, x * m + y * n, 1);
    }
    s := Shape(g, m, n, y - x, -x);
    assert (y - x) * n == 1 + (-x) * (m + n) by {
      Distribute(n, y, x);
      Distribute(-x, m, n);
    }
    Distribute(g, m, n);
    ModUnique(nn + no, m + n, 0, g);
  }

  lemma AtStep(s: Shape, k: nat)
    requires s.m > 0 && s.n > 0
    ensures s.At(k + 1) == if s.At(k) >= s.m then s.At(k) - s.m else s.At(k) + s.n
  {
    var len := s.Len();
    var x := s.m + k * s.n;
    var q := x / len;
    assert s.m + (k + 1) * s.n == x + s.n by { Distribute(s.n, k, 1); }
    assert x == len * q + s.At(k);
    if s.At(k) >= s.m {
      Distribute(len, q, 1);
      ModUnique(x + s.n, q + 1, s.At(k) - s.m, len);
    } else {
      ModUnique(x + s.n, q, s.At(k) + s.n, len);
    }
  }

  lemma CountOfAt(s: Shape, nn: nat, no: nat, k: nat)
    requires s.Valid(nn, no) && k < s.Len()
    ensures s.Count(s.At(k)) == k
  {
    var len := s.Len();
    var q := (s.m + k * s.n) / len;
    assert s.At(k) - s.m == k * s.n - len * q;
    calc {
      (s.At(k) - s.m) * s.u;
      { Distribute(s.u, k * s.n, len * q); }
      (k * s.n) * s.u - (len * q) * s.u;
      { MulAssoc(k, s.n, s.u); MulAssoc(len, q, s.u); }
      k * (1 + s.v * len) - len * (q * s.u);
      { Distribute(k, 1, s.v * len); MulAssoc(k, s.v, len); Distribute(len, k * s.v, q * s.u); }
      k + len * (k * s.v - q * s.u);
    }
    ModUnique((s.At(k) - s.m) * s.u, k * s.v - q * s.u, k, len);
  }

  lemma AtOfCount(s: Shape, nn: nat, no: nat, i: nat)
    requires s.Valid(nn, no) && i < s.Len()
    ensures s.At(s.Count(i)) == i
  {
    var len := s.Len();
    var k := s.Count(i);
    var q := ((i - s.m) * s.u) / len;
    assert k == (i - s.m) * s.u - len * q;
    calc {
      k * s.n;
      { Distribute(s.n, (i - s.m) * s.u, len * q); }
      ((i - s.m) * s.u) * s.n - (len * q) * s.n;
      { MulAssoc(i - s.m, s.u, s.n); MulAssoc(len, q, s.n); }
      (i - s.m) * (1 + s.v * len) - len * (q * s.n);
      { Distribute(i - s.m, 1, s.v * len); MulAssoc(i - s.m, s.v, len); Distribute(len, (i - s.m) * s.v, q * s.n); }
      i - s.m + len * ((i - s.m) * s.v - q * s.n);
    }
    ModUnique(s.m + k * s.n, (i - s.m) * s.v - q * s.n, i, len);
  }

  /** c lists all indices below m + n once each, starting from m, each one hop after the one before. */
  ghost predicate IsRotation(m: nat, n: nat, c: seq<nat>) {
    && |c| == m + n > 0 && c[0] == m
    && (forall k :: 0 <= k < |c| ==> c[k] < m + n)
    && (forall j, k :: 0 <= j < k < |c| && k - j == 1 ==> c[k] == Hop(m, n, c[j]))
    && c[0] == Hop(m, n, c[|c| - 1])
    && (forall j, k :: 0 <= j < k < |c| ==> c[j] != c[k])
    && (forall a: nat :: a < m + n ==> a in c)
  }

  /** Hopping by block lengths without a common factor visits every index. */
  lemma Rotation(s: Shape, nn: nat, no: nat) returns (c: seq<nat>)
    requires s.Valid(nn, no)
    ensures IsRotation(s.m, s.n, c)
  {
    var len := s.Len();
    c := seq(len, k requires 0 <= k < len => s.At(k));
    ModUnique(s.m, 0, s.m, len);
    ModShift(s.m, s.n, len);
    assert s.At(len) == s.At(0);
    forall k | 0 <= k < len
      ensures s.Count(c[k]) == k && s.At(k + 1) == Hop(s.m, s.n, c[k])
    {
      CountOfAt(s, nn, no, k);
      AtStep(s, k);
    }
    forall a: nat | a < len
      ensures a in c
    {
      AtOfCount(s, nn, no, a);
      assert c[s.Count(a)] == a;
    }
  }

  /** The same hop, in units of one element, within residue class i modulo g. */
  lemma ScaledHop(g: nat, m: nat, n: nat, i: nat, a: nat)
    requires i < g && a < m + n
    ensures i + g * a < g * m + g * n
    ensures Hop(g * m, g * n, i + g * a) == i + g * Hop(m, n, a)
  {
    MulMonotone(a + 1, m + n, g);
    Distribute(g, m, n);
    Distribute(g, a, 1);
    Distribute(g, a, m);
    Distribute(g, a, n);
    if a >= m {
      MulMonotone(m, a, g);
    } else {
      MulMonotone(a + 1, m, g);
    }
  }

  /** The cycle of the exchange that a position belongs to. */
  function ClassOf(start: nat, mid: nat, end: nat, p: nat): (i: nat)
    requires start < mid < end && start <= p
    ensures i < Gcd(mid - start, end - mid)
  {
    (p - start) % Gcd(mid - start, end - mid)
  }

  /** Where the cycle walk goes from slot p. */
  function Next(start: nat, mid: nat, end: nat, p: nat): (q: nat)
    requires start <= mid <= end && start <= p < end
    ensures start <= q < end
  {
    if p >= mid then p - (mid - start) else p + (end - mid)
  }

  /** The classes of all slots; a slot outside argv[start..end] gets the number of classes instead. */
  function Classes(start: nat, mid: nat, end: nat, n: nat): (cls: seq<nat>)
    requires start < mid < end <= n
    ensures |cls| == n
    ensures forall p :: 0 <= p < n ==> (cls[p] < Gcd(mid - start, end - mid) <==> start <= p < end)
  {
    seq(n, p => if start <= p < end then ClassOf(start, mid, end, p) else Gcd(mid - start, end - mid))
  }

  /** w is a closed walk over argv[start..end] without repeats, from the slot i past the first block. */
  ghost predicate IsWalk(start: nat, mid: nat, end: nat, i: nat, w: seq<nat>)
    requires start < mid < end
  {
    && |w| > 0 && w[0] == mid + i
    && (forall k :: 0 <= k < |w| ==> start <= w[k] < end)
    && (forall j, k :: 0 <= j < k < |w| && k - j == 1 ==> w[k] == Next(start, mid, end, w[j]))
    && w[0] == Next(start, mid, end, w[|w| - 1])
    && (forall j, k :: 0 <= j < k < |w| ==> w[j] != w[k])
  }

  /** The walk has total/gcd steps and visits class i, all of it and nothing else. */
  ghost predicate IsCycle(start: nat, mid: nat, end: nat, i: nat, w: seq<nat>)
    requires start < mid < end
  {
    && IsWalk(start, mid, end, i, w)
    && |w| == (end - start) / Gcd(mid - start, end - mid)
    && (forall p :: p in w <==> start <= p < end && ClassOf(start, mid, end, p) == i)
  }

  /** The slots of class i that correspond to the indices c. */
  function Scaled(start: nat, i: nat, g: nat, c: seq<nat>): (w: seq<nat>)
    ensures |w| == |c|
    ensures forall k :: 0 <= k < |w| ==> w[k] == Slot(start, i, g, c[k])
  {
    seq(|c|, k requires 0 <= k < |c| => Slot(start, i, g, c[k]))
  }

  function Slot(start: nat, i: nat, g: nat, a: nat): nat {
    start + (i + g * a)
  }

  lemma SlotFacts(start: nat, mid: nat, end: nat, s: Shape, i: nat, a: nat)
    requires start < mid < end
    requires s.Valid(mid - start, end - mid) && s.g == Gcd(mid - start, end - mid)
    requires i < s.g && a < s.m + s.n
    ensures start <= Slot(start, i, s.g, a) < end
    ensures Next(start, mid, end, Slot(start, i, s.g, a)) == Slot(start, i, s.g, Hop(s.m, s.n, a))
    ensures ClassOf(start, mid, end, Slot(start, i, s.g, a)) == i
  {
    hide Gcd;
    ScaledHop(s.g, s.m, s.n, i, a);
    SlotClass(i, s.g, a);
  }

  lemma SlotClass(i: nat, g: nat, a: nat)
    requires i < g
    ensures (i + g * a) % g == i
  {
    ModUnique(i + g * a, a, i, g);
  }

  lemma SlotIsInjective(start: nat, i: nat, g: nat, a: nat, a': nat)
    requires g > 0 && Slot(start, i, g, a) == Slot(start, i, g, a')
    ensures a == a'
  {
    var x: int, y: int := a, a';
    NonzeroMultiple(g, x - y);
    Distribute(g, x, y);
  }

  lemma WalkOfRotation(start: nat, mid: nat, end: nat, i: nat, s: Shape, c: seq<nat>)
    requires start < mid < end
    requires s.Valid(mid - start, end - mid) && s.g == Gcd(mid - start, end - mid)
    requires i < s.g && IsRotation(s.m, s.n, c)
    ensures IsWalk(start, mid, end, i, Scaled(start, i, s.g, c))
    ensures forall p :: p in Scaled(start, i, s.g, c) ==> ClassOf(start, mid, end, p) == i
  {
    var w := Scaled(start, i, s.g, c);
    forall k | 0 <= k < |w|
      ensures start <= w[k] < end && ClassOf(start, mid, end, w[k]) == i
      ensures Next(start, mid, end, w[k]) == Slot(start, i, s.g, Hop(s.m, s.n, c[k]))
    {
      SlotFacts(start, mid, end, s, i, c[k]);
    }
    forall j, k | 0 <= j < k < |w|
      ensures w[j] != w[k]
    {
      if w[j] == w[k] {
        SlotIsInjective(start, i, s.g, c[j], c[k]);
      }
    }
  }

  lemma SlotOfClass(start: nat, mid: nat, end: nat, s: Shape, p: nat) returns (a: nat)
    requires start < mid < end && start <= p < end
    requires s.Valid(mid - start, end - mid) && s.g == Gcd(mid - start, end - mid)
    ensures a < s.m + s.n && p == Slot(start, ClassOf(start, mid, end, p), s.g, a)
  {
    a := (p - start) / s.g;
    Distribute(s.g, s.m, s.n);
    QuotientBelow(p - start, s.g, s.m + s.n);
  }

  /** The gcd-many walks of length total/gcd partition the range: there is one cycle per class. */
  lemma CyclesPartition(start: nat, mid: nat, end: nat, i: nat) returns (w: seq<nat>)
    requires start < mid < end && i < Gcd(mid - start, end - mid)
    ensures IsCycle(start, mid, end, i, w)
  {
    var s := GetShape(mid - start, end - mid);
    var c := Rotation(s, mid - start, end - mid);
    w := Scaled(start, i, s.g, c);
    WalkOfRotation(start, mid, end, i, s, c);
    forall p | start <= p < end && ClassOf(start, mid, end, p) == i
      ensures p in w
    {
      var a := SlotOfClass(start, mid, end, s, p);
      assert a in c;
      var k :| 0 <= k < |c| && c[k] == a;
      assert w[k] == p;
    }
  }

  lemma CycleOfClass(start: nat, mid: nat, end: nat, cls: seq<nat>, i: nat) returns (w: seq<nat>)
    requires start < mid < end <= |cls| && i < Gcd(mid - start, end - mid)
    requires cls == Classes(start, mid, end, |cls|)
    ensures IsWalk(start, mid, end, i, w) && |w| == (end - start) / Gcd(mid - start, end - mid)
    ensures forall k :: 0 <= k < |w| ==> cls[w[k]] == i
    ensures forall p :: 0 <= p < |cls| && cls[p] == i ==> p in w
  {
    w := CyclesPartition(start, mid, end, i);
    assert forall k :: 0 <= k < |w| ==> w[k] in w;
  }

  /** The two blocks a[start..mid] and a[mid..end] exchanged. */
  function Exchanged<T>(a: seq<T>, start: nat, mid: nat, end: nat): (r: seq<T>)
    requires start <= mid <= end <= |a|
  {
    a[..start] + a[mid..end] + a[start..mid] + a[end..]
  }

  /** Element-wise: relative position p moves to (p + length of the second block) modulo the total. */
  lemma ExchangedAt<T>(a: seq<T>, start: nat, mid: nat, end: nat, p: nat)
    requires start < mid < end <= |a|
    requires p < end - start
    ensures (p + (end - mid)) % (end - start) == Hop(mid - start, end - mid, p)
    ensures Exchanged(a, start, mid, end)[start + (p + (end - mid)) % (end - start)] == a[start + p]
  {
    ModUnique(p + (end - mid), if p >= mid - start then 1 else 0, Hop(mid - start, end - mid, p), end - start);
  }

  method ComputeGcd(a: nat, b: nat) returns (g: nat)
    requires b > 0
    ensures g == Gcd(a, b)
  {
    var x, y := a, b;
    var c := x % y;
    while c != 0
      invariant y > 0 && c == x % y
      invariant Gcd(x, y) == Gcd(a, b)
      decreases c
    {
      x := y;
      y := c;
      c := x % y;
    }
    g := y;
  }

  /** The slot whose element ends up at p. */
  function Source(start: nat, mid: nat, end: nat, p: nat): (q: nat)
    requires start <= mid <= end && start <= p < end
    ensures start <= q < end && Next(start, mid, end, q) == p
  {
    if p < start + (end - mid) then p + (mid - start) else p - (end - mid)
  }

  lemma WalkSource(start: nat, mid: nat, end: nat, i: nat, w: seq<nat>, p: nat) returns (k: nat)
    requires start < mid < end && IsWalk(start, mid, end, i, w) && p in w
    ensures k < |w| && w[k] == Source(start, mid, end, p)
    ensures p == if k + 1 < |w| then w[k + 1] else w[0]
  {
    var k' :| 0 <= k' < |w| && w[k'] == p;
    k := if k' == 0 then |w| - 1 else k' - 1;
    assert p == w[k'] == Next(start, mid, end, w[k]);
  }

  /** The vector after j swaps along the walk w: j elements have moved one hop, the next one to move
      is parked in the starting slot, and everything else is as it was in b. */
  ghost predicate Rotated<T>(b: seq<T>, cls: seq<nat>, i: nat, w: seq<nat>, a: seq<T>, j: nat)
    requires |b| == |cls| == |a| && 0 < |w| && j <= |w|
    requires forall k :: 0 <= k < |w| ==> w[k] < |a|
  {
    && (forall h, k :: 0 <= h < k < |w| && k - h == 1 && k <= j ==> a[w[k]] == b[w[h]])
    && (forall k :: j < k < |w| ==> a[w[k]] == b[w[k]])
    && a[w[0]] == (if j < |w| then b[w[j]] else b[w[j - 1]])
    && (forall p :: 0 <= p < |a| && cls[p] != i ==> a[p] == b[p])
  }

  lemma RotatedStep<T>(b: seq<T>, cls: seq<nat>, i: nat, w: seq<nat>, a: seq<T>, j: nat, pos: nat)
    requires |b| == |cls| == |a| && j < |w|
    requires forall k :: 0 <= k < |w| ==> w[k] < |a| && cls[w[k]] == i
    requires forall h, k :: 0 <= h < k < |w| ==> w[h] != w[k]
    requires pos == if j + 1 < |w| then w[j + 1] else w[0]
    requires Rotated(b, cls, i, w, a, j)
    ensures Rotated(b, cls, i, w, a[pos := a[w[0]]][w[0] := a[pos]], j + 1)
  {
  }

  /** The inner loop of permute_args: one cycle, by swaps against its starting slot. */
  method RotateCycle(a: array<string>, start: nat, mid: nat, end: nat, cyclelen: nat, i: nat,
                     ghost w: seq<nat>, ghost cls: seq<nat>)
    requires start < mid < end <= a.Length == |cls|
    requires IsWalk(start, mid, end, i, w) && cyclelen == |w|
    requires forall k :: 0 <= k < |w| ==> cls[w[k]] == i
    modifies a
    ensures Rotated(old(a[..]), cls, i, w, a[..], |w|)
  {
    hide Gcd, ClassOf;
    var cstart := mid + i;
    var pos := cstart;
    var j := 0;
    while j < cyclelen
      invariant 0 <= j <= cyclelen
      invariant pos == if j < |w| then w[j] else w[0]
      invariant Rotated(old(a[..]), cls, i, w, a[..], j)
    {
      pos := if pos >= mid then pos - (mid - start) else pos + (end - mid);
      RotatedStep(old(a[..]), cls, i, w, a[..], j, pos);
      ghost var before := a[..];
      var swap := a[pos];
      a[pos] := a[cstart];
      a[cstart] := swap;
      assert a[..] == before[pos := before[w[0]]][w[0] := before[pos]];
      j := j + 1;
    }
  }

  lemma ExchangedBySource<T>(b: seq<T>, start: nat, mid: nat, end: nat, r: seq<T>)
    requires start < mid < end <= |b| && |r| == |b|
    requires forall p :: 0 <= p < |r| ==> r[p] == b[if start <= p < end then Source(start, mid, end, p) else p]
    ensures r == Exchanged(b, start, mid, end)
  {
  }

  /** permute_args: exchanges the blocks argv[start..mid] and argv[mid..end], keeping the order in each. */
  method Permute(a: array<string>, start: nat, mid: nat, end: nat)
    requires start < mid < end <= a.Length
    modifies a
    ensures a[..] == Exchanged(old(a[..]), start, mid, end)
  {
    hide Gcd, ClassOf, Exchanged, IsWalk;
    ghost var b := a[..];
    ghost var cls := Classes(start, mid, end, a.Length);
    var ncycle := ComputeGcd(mid - start, end - mid);
    var cyclelen := (end - start) / ncycle;
    var i := 0;
    while i < ncycle
      invariant 0 <= i <= ncycle
      invariant forall p :: 0 <= p < a.Length ==> a[p] == b[if cls[p] < i then Source(start, mid, end, p) else p]
    {
      ghost var before := a[..];
      ghost var w := CycleOfClass(start, mid, end, cls, i);
      RotateCycle(a, start, mid, end, cyclelen, i, w, cls);
      forall p | 0 <= p < a.Length && cls[p] == i
        ensures a[p] == b[Source(start, mid, end, p)]
      {
        var k := WalkSource(start, mid, end, i, w, p);
        assert before[w[k]] == b[w[k]];
      }
      i := i + 1;
    }
    ExchangedBySource(b, start, mid, end, a[..]);
  }
}
