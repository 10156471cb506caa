/** The acquire and release tracking of an endpoint's buffers (common/SoapyStreamEndpoint.cpp):
    a ring of NUM_BUFFS handles, released in any order and reclaimed in the order of issue. */
module HandleRing {
  import opened FlowControl

  /** _buffData[..].acquired, _nextHandleAcquire, _nextHandleRelease and _numHandlesAcquired. */
  datatype Ring = Ring(acquired: seq<bool>, next: nat, release: nat, num: nat) {
    predicate Valid() {
      && |acquired| == NUM_BUFFS && release < NUM_BUFFS && num <= NUM_BUFFS
      && next == Slot(num)
      && (num > 0 ==> acquired[release])
      && (forall h :: 0 <= h < NUM_BUFFS && Age(h) >= num ==> !acquired[h])
    }

    /** How many handles after the release position h comes. */
    function Age(h: nat): nat
      requires h < NUM_BUFFS && release < NUM_BUFFS
    {
      if h >= release then h - release else h + NUM_BUFFS - release
    }

    /** The handle k after the release position. */
    function Slot(k: nat): (h: nat)
      requires release < NUM_BUFFS && k <= NUM_BUFFS
      ensures h < NUM_BUFFS
      ensures k < NUM_BUFFS ==> Age(h) == k
    {
      if release + k < NUM_BUFFS then release + k else release + k - NUM_BUFFS
    }

    /** The queue the ring stands for: issued handles, oldest first, and which of them were given back. */
    function Fifo(): seq<Entry>
      requires |acquired| == NUM_BUFFS && release < NUM_BUFFS && num <= NUM_BUFFS
    {
      seq(num, k requires 0 <= k < num => Entry(Slot(k), !acquired[Slot(k)]))
    }

    predicate Full() {
      num == NUM_BUFFS
    }

    function Acquire(): Ring
      requires Valid() && !Full()
    {
      Ring(acquired[next := true], (next + 1) % NUM_BUFFS, release, num + 1)
    }

    /** The loop that reclaims from the release position on. */
    function Reclaim(): Ring
      requires |acquired| == NUM_BUFFS && release < NUM_BUFFS
      decreases num
    {
      if num == 0 || acquired[release] then this
      else this.(release := (release + 1) % NUM_BUFFS, num := num - 1).Reclaim()
    }

    function Release(h: nat): Ring
      requires Valid() && h < NUM_BUFFS
    {
      this.(acquired := acquired[h := false]).Reclaim()
    }
  }

  datatype Entry = Entry(handle: nat, released: bool)

  function EmptyRing(): Ring {
    Ring(seq(NUM_BUFFS, _ => false), 0, 0, 0)
  }

  /** Gives handle h back, without removing it from the queue. */
  function Mark(q: seq<Entry>, h: nat): (r: seq<Entry>)
    ensures |r| == |q|
  {
    seq(|q|, k requires 0 <= k < |q| => if q[k].handle == h then q[k].(released := true) else q[k])
  }

  /** Removes the released entries at the front. */
  function DropReleased(q: seq<Entry>): seq<Entry> {
    if q != [] && q[0].released then DropReleased(q[1..]) else q
  }

  predicate Holds(q: seq<Entry>, h: nat) {
    exists k :: 0 <= k < |q| && q[k].handle == h
  }

  /** A handle goes to the back of the queue, and it was not in it. */
  lemma AcquireRefines(r: Ring)
    requires r.Valid() && !r.Full()
    ensures r.Acquire().Valid()
    ensures r.Acquire().Fifo() == r.Fifo() + [Entry(r.next, false)]
    ensures !Holds(r.Fifo(), r.next)
  {
  }

  /** _nextHandleAcquire is always numHandlesAcquired places after _nextHandleRelease, around the ring. */
  lemma NextIsModular(r: Ring)
    requires r.Valid()
    ensures r.next == (r.release + r.num) % NUM_BUFFS
  {
  }

  /** Between the marking and the end of the loop only the head may break the ring's invariant. */
  predicate Loose(r: Ring) {
    && |r.acquired| == NUM_BUFFS && r.release < NUM_BUFFS && r.num <= NUM_BUFFS
    && r.next == r.Slot(r.num)
    && (forall h :: 0 <= h < NUM_BUFFS && r.Age(h) >= r.num ==> !r.acquired[h])
  }

  lemma {:induction false} ReclaimRefines(r: Ring)
    requires Loose(r)
    ensures r.Reclaim().Valid()
    ensures r.Reclaim().Fifo() == DropReleased(r.Fifo())
    decreases r.num
  {
    if r.num > 0 && !r.acquired[r.release] {
      var t := r.(release := (r.release + 1) % NUM_BUFFS, num := r.num - 1);
      ReclaimStep(r, t);
      ReclaimRefines(t);
    }
  }

  lemma ReclaimStep(r: Ring, t: Ring)
    requires Loose(r) && r.num > 0 && !r.acquired[r.release]
    requires t == r.(release := (r.release + 1) % NUM_BUFFS, num := r.num - 1)
    ensures Loose(t) && t.Fifo() == r.Fifo()[1..] && r.Fifo()[0].released
  {
    assert forall k :: 0 <= k < NUM_BUFFS ==> t.Slot(k) == r.Slot(k + 1);
  }

  /** Giving a handle back marks it, and reclaims what is released at the front, in the order of issue. */
  lemma ReleaseRefines(r: Ring, h: nat)
    requires r.Valid() && h < NUM_BUFFS
    ensures r.Release(h).Valid()
    ensures r.Release(h).Fifo() == DropReleased(Mark(r.Fifo(), h))
  {
    var t := r.(acquired := r.acquired[h := false]);
    assert t.Fifo() == Mark(r.Fifo(), h);
    ReclaimRefines(t);
  }

  function ReleaseEach(r: Ring, hs: seq<nat>): Ring
    requires r.Valid() && forall i :: 0 <= i < |hs| ==> hs[i] < NUM_BUFFS
    ensures ReleaseEach(r, hs).Valid()
    decreases |hs|
  {
    if hs == [] then r
    else
      ReleaseRefines(r, hs[0]);
      ReleaseEach(r.Release(hs[0]), hs[1..])
  }

  lemma {:induction false} DropReleasedIsSuffix(q: seq<Entry>) returns (n: nat)
    ensures n <= |q| && DropReleased(q) == q[n..]
    ensures n < |q| ==> !q[n].released
    ensures forall k :: 0 <= k < n ==> q[k].released
  {
    if q != [] && q[0].released {
      n := DropReleasedIsSuffix(q[1..]);
      n := n + 1;
    } else {
      n := 0;
    }
  }

  lemma HeadHeld(r: Ring)
    requires r.Valid()
    ensures r.num > 0 ==> r.Fifo() != [] && !r.Fifo()[0].released
  {
  }

  /** Whatever the order, giving back every handle that is held empties the ring. */
  lemma {:induction false} ReleaseAllEmpties(r: Ring, hs: seq<nat>)
    requires r.Valid() && forall i :: 0 <= i < |hs| ==> hs[i] < NUM_BUFFS
    requires forall k :: 0 <= k < |r.Fifo()| && !r.Fifo()[k].released ==> r.Fifo()[k].handle in hs
    ensures ReleaseEach(r, hs).Fifo() == [] && ReleaseEach(r, hs).num == 0
    decreases |hs|
  {
    hide Ring.Reclaim, Ring.Release;
    if hs == [] {
      HeadHeld(r);
    } else {
      ReleaseRefines(r, hs[0]);
      var marked := Mark(r.Fifo(), hs[0]);
      var n := DropReleasedIsSuffix(marked);
      var t := r.Release(hs[0]);
      forall k | 0 <= k < |t.Fifo()| && !t.Fifo()[k].released
        ensures t.Fifo()[k].handle in hs[1..]
      {
        assert t.Fifo()[k] == marked[n + k] == r.Fifo()[n + k];
        assert hs == [hs[0]] + hs[1..];
      }
      ReleaseAllEmpties(t, hs[1..]);
    }
  }

  /** Taking one handle of an empty ring and giving it back leaves the ring empty. */
  lemma AcquireThenRelease(r: Ring)
    requires r.Valid() && r.num == 0
    ensures r.Acquire().Valid() && r.next < NUM_BUFFS
    ensures r.Acquire().Fifo() == [Entry(r.next, false)]
    ensures r.Acquire().Release(r.next).Valid() && r.Acquire().Release(r.next).num == 0
  {
    AcquireRefines(r);
    var t := r.Acquire();
    ReleaseRefines(t, r.next);
    assert Mark(t.Fifo(), r.next) == [Entry(r.next, true)];
    assert DropReleased(Mark(t.Fifo(), r.next)) == [];
    assert |t.Release(r.next).Fifo()| == 0;
  }

  lemma ReleaseOnly(h: nat)
    ensures DropReleased(Mark([Entry(h, false)], h)) == []
  {
    assert Mark([Entry(h, false)], h) == [Entry(h, true)];
    assert DropReleased([Entry(h, true)]) == [];
  }
}
