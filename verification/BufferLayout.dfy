/** How an endpoint divides a transfer buffer among its channels (common/SoapyStreamEndpoint.cpp). */
module BufferLayout {
  import opened Arithmetic
  import opened Bytes
  import opened FlowControl

  /** xferSize bytes for numChans channels of elements of elemSize bytes, after the datagram header. */
  datatype Layout = Layout(xferSize: nat, numChans: nat, elemSize: nat) {
    ghost predicate Valid() {
      HEADER_SIZE <= xferSize && numChans > 0 && elemSize > 0
    }

    /** Elements per channel. */
    function BuffSize(): nat
      requires Valid()
    {
      ((xferSize - HEADER_SIZE) / numChans) / elemSize
    }

    /** Where channel i begins. */
    function Offset(i: nat): nat
      requires Valid()
    {
      hide BuffSize;
      HEADER_SIZE + (i * BuffSize()) * elemSize
    }

    /** The datagram length for numElems elements: whole regions for all channels but the last. */
    function Bytes(numElems: nat): nat
      requires Valid()
    {
      hide BuffSize;
      HEADER_SIZE + ((numChans - 1) * BuffSize() + numElems) * elemSize
    }

    /** The first n elements of channel i. */
    function Channel(buf: seq<byte>, i: nat, n: nat): (r: seq<byte>)
      requires Valid() && Offset(i) + n * elemSize <= |buf|
    {
      buf[Offset(i)..Offset(i) + n * elemSize]
    }
  }

  /** All channels' regions together fit behind the header. */
  lemma TotalFits(l: Layout)
    requires l.Valid()
    ensures l.Offset(l.numChans) <= l.xferSize
  {
    var b, es, total := l.BuffSize(), l.elemSize, l.xferSize - HEADER_SIZE;
    var per := total / l.numChans;
    DivMod(per, es);
    DivMod(total, l.numChans);
    MulMonotone(b * es, per, l.numChans);
    MulAssoc(l.numChans, b, es);
  }

  lemma BuffSizeSmall(l: Layout)
    requires l.Valid()
    ensures l.BuffSize() <= l.xferSize
  {
    var total := l.xferSize - HEADER_SIZE;
    DivMod(total, l.numChans);
    MulMonotone(1, l.numChans, total / l.numChans);
    DivMod(total / l.numChans, l.elemSize);
    MulMonotone(1, l.elemSize, l.BuffSize());
  }

  lemma OffsetStep(l: Layout, i: nat)
    requires l.Valid()
    ensures l.Offset(i + 1) == l.Offset(i) + l.BuffSize() * l.elemSize
  {
    hide Layout.BuffSize;
    Distribute(l.BuffSize(), i, 1);
    Distribute(l.elemSize, i * l.BuffSize(), l.BuffSize());
  }

  /** The regions lie one behind the other, without gaps, and a datagram ends with the elements of the last one. */
  lemma RegionsAdjacent(l: Layout, i: nat, n: nat)
    requires l.Valid()
    ensures l.Offset(0) == 24 && l.Offset(i + 1) - l.Offset(i) == l.BuffSize() * l.elemSize
    ensures l.Bytes(n) == 24 + (l.numChans - 1) * (l.BuffSize() * l.elemSize) + n * l.elemSize
  {
    hide Layout.BuffSize;
    OffsetStep(l, i);
    Distribute(l.elemSize, (l.numChans - 1) * l.BuffSize(), n);
    MulAssoc(l.numChans - 1, l.BuffSize(), l.elemSize);
  }

  lemma OffsetAfterHeader(l: Layout, i: nat)
    requires l.Valid()
    ensures HEADER_SIZE <= l.Offset(i)
  {
    hide Layout.BuffSize;
  }

  lemma OffsetMonotone(l: Layout, i: nat, j: nat)
    requires l.Valid() && i <= j
    ensures l.Offset(i) <= l.Offset(j)
  {
    hide Layout.BuffSize;
    MulMonotone(i, j, l.BuffSize());
    MulMonotone(i * l.BuffSize(), j * l.BuffSize(), l.elemSize);
  }

  lemma BytesOfLastChannel(l: Layout, n: nat)
    requires l.Valid()
    ensures l.Bytes(n) == l.Offset(l.numChans - 1) + n * l.elemSize
  {
    hide Layout.BuffSize;
    Distribute(l.elemSize, (l.numChans - 1) * l.BuffSize(), n);
  }

  /** Channel i's first n elements lie in its own region, in the datagram and in the transfer buffer. */
  lemma RegionsFit(l: Layout, i: nat, n: nat)
    requires l.Valid() && i < l.numChans && n <= l.BuffSize()
    ensures HEADER_SIZE <= l.Offset(i)
    ensures l.Offset(i) + n * l.elemSize <= l.Offset(i + 1) <= l.xferSize
    ensures l.Offset(i) + n * l.elemSize <= l.Bytes(n) <= l.xferSize
  {
    hide Layout.BuffSize, Layout.Offset, Layout.Bytes;
    TotalFits(l);
    OffsetAfterHeader(l, i);
    OffsetStep(l, i);
    OffsetStep(l, l.numChans - 1);
    OffsetMonotone(l, i + 1, l.numChans);
    OffsetMonotone(l, i, l.numChans - 1);
    MulMonotone(n, l.BuffSize(), l.elemSize);
    BytesOfLastChannel(l, n);
  }

  /** Regions in order are disjoint. */
  lemma RegionsDisjoint(l: Layout, i: nat, j: nat)
    requires l.Valid() && i < j < l.numChans
    ensures l.Offset(i) + l.BuffSize() * l.elemSize <= l.Offset(j)
  {
    hide Layout.BuffSize, Layout.Offset;
    OffsetStep(l, i);
    OffsetMonotone(l, i + 1, j);
  }

  /** No larger division of the buffer would fit. */
  lemma BuffSizeIsLargest(l: Layout, b: nat)
    requires l.Valid() && HEADER_SIZE + (l.numChans * b) * l.elemSize <= l.xferSize
    ensures b <= l.BuffSize()
  {
    var total := l.xferSize - HEADER_SIZE;
    var per := total / l.numChans;
    MulAssoc(l.numChans, b, l.elemSize);
    if b * l.elemSize > per {
      MulMonotone(per + 1, b * l.elemSize, l.numChans);
      Distribute(l.numChans, per, 1);
      assert false;
    }
    if b > l.BuffSize() {
      MulMonotone(l.BuffSize() + 1, b, l.elemSize);
      Distribute(l.elemSize, l.BuffSize(), 1);
      assert false;
    }
  }

  /** Both ends agree on every sample's position: whatever the receiver's buffer held before, a datagram
      of n elements gives it each channel's first n elements as the sender's buffer has them. */
  lemma DatagramCarriesChannels(l: Layout, n: nat, sent: seq<byte>, received: seq<byte>, i: nat)
    requires l.Valid() && i < l.numChans && n <= l.BuffSize()
    requires |sent| == l.xferSize && |received| == l.xferSize
    requires l.Bytes(n) <= l.xferSize && received[..l.Bytes(n)] == sent[..l.Bytes(n)]
    ensures l.Offset(i) + n * l.elemSize <= l.xferSize
    ensures l.Channel(received, i, n) == l.Channel(sent, i, n)
  {
    hide Layout.BuffSize, Layout.Offset, Layout.Bytes;
    RegionsFit(l, i, n);
    assert l.Channel(received, i, n) == received[..l.Bytes(n)][l.Offset(i)..l.Offset(i) + n * l.elemSize];
    assert l.Channel(sent, i, n) == sent[..l.Bytes(n)][l.Offset(i)..l.Offset(i) + n * l.elemSize];
  }
}
