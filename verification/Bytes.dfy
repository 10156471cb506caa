/** Bytes in network order and two's complement words. */
module Bytes {
  import opened Arithmetic

  newtype byte = x: int | 0 <= x < 256

  function Pow256(n: nat): (p: nat)
    ensures p > 0
  {
    if n == 0 then 1 else 256 * Pow256(n - 1)
  }

  /** The n low-order bytes of v, most significant first. */
  function BigEndian(n: nat, v: nat): (s: seq<byte>)
    ensures |s| == n
  {
    if n == 0 then [] else BigEndian(n - 1, v / 256) + [(v % 256) as byte]
  }

  function FromBigEndian(s: seq<byte>): (v: nat)
    ensures v < Pow256(|s|)
  {
    if s == [] then 0 else FromBigEndian(s[..|s| - 1]) * 256 + s[|s| - 1] as int
  }

  lemma {:induction false} BigEndianRoundTrip(n: nat, v: nat)
    requires v < Pow256(n)
    ensures FromBigEndian(BigEndian(n, v)) == v
  {
    if n > 0 {
      BigEndianRoundTrip(n - 1, v / 256);
      assert BigEndian(n, v)[..n - 1] == BigEndian(n - 1, v / 256);
    }
  }

  lemma PowersOf256()
    ensures Pow256(4) == 0x1_0000_0000
    ensures Pow256(8) == 0x1_0000_0000_0000_0000
  {
    assert Pow256(2) == 65536;
    assert Pow256(4) == 65536 * Pow256(2);
    assert Pow256(6) == 65536 * Pow256(4);
    assert Pow256(8) == 65536 * Pow256(6);
  }

  /** The two's complement reading of an unsigned n-byte word. */
  function Signed(n: nat, w: nat): int {
    if 2 * w >= Pow256(n) then w - Pow256(n) else w
  }

  predicate Fits(n: nat, x: int) {
    0 <= 2 * x + Pow256(n) && 2 * x < Pow256(n)
  }

  lemma SignedRoundTrip(n: nat, x: int)
    requires Fits(n, x)
    ensures 0 <= x % Pow256(n) < Pow256(n)
    ensures Signed(n, x % Pow256(n)) == x
  {
    if x >= 0 {
      ModUnique(x, 0, x, Pow256(n));
    } else {
      ModUnique(x, -1, x + Pow256(n), Pow256(n));
    }
  }

  /** An n-byte two's complement integer in network order. */
  function SignedBytes(n: nat, x: int): (s: seq<byte>)
    ensures |s| == n
  {
    BigEndian(n, x % Pow256(n))
  }

  function FromSignedBytes(s: seq<byte>): int {
    Signed(|s|, FromBigEndian(s))
  }

  lemma SignedBytesRoundTrip(n: nat, x: int)
    requires Fits(n, x)
    ensures FromSignedBytes(SignedBytes(n, x)) == x
  {
    SignedRoundTrip(n, x);
    BigEndianRoundTrip(n, x % Pow256(n));
  }
}
