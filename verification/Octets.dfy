/** Octets and the big-endian fields every packet of the MAC layer is made of. */
module Octets {
  import opened Wrappers
  import Division

  type byte = uint8

  /** The size of every byte string on the air, and of every inter-layer message. */
  const PACKET_SIZE_MAC: nat := 256

  function Pow256(n: nat): (r: nat)
    ensures r > 0
  {
    if n == 0 then 1 else 256 * Pow256(n - 1)
  }

  /** Octet k of x, counted from the least significant: (x >> 8*k) & 0xff. */
  function Octet(x: nat, k: nat): byte
    decreases k
  {
    if k == 0 then x % 256 else Octet(x / 256, k - 1)
  }

  /** That is division by a power of 256, and what is left of it in one octet. */
  lemma {:induction false} OctetIs(x: nat, k: nat)
    ensures Octet(x, k) == (x / Pow256(k)) % 256
    decreases k
  {
    if k > 0 {
      OctetIs(x / 256, k - 1);
      Division.DivideTwice(x, 256, Pow256(k - 1));
    }
  }

  /** The n octets of b from position at on, shifted into place and or-ed together, most significant first. */
  function Join(b: seq<byte>, at: nat, n: nat): (x: nat)
    requires at + n <= |b|
    ensures x < Pow256(n)
  {
    if n == 0 then 0 else 256 * Join(b, at, n - 1) + b[at + n - 1]
  }

  /** The n octets of b from position at on are those of x. */
  ghost predicate HasField(b: seq<byte>, at: nat, n: nat, x: nat)
    requires at + n <= |b|
  {
    forall k :: at <= k < at + n ==> b[k] == Octet(x, at + n - 1 - k)
  }

  lemma {:induction false} JoinOctets(b: seq<byte>, at: nat, n: nat, x: nat)
    requires at + n <= |b| && x < Pow256(n) && HasField(b, at, n, x)
    ensures Join(b, at, n) == x
  {
    if n > 0 {
      assert b[at + n - 1] == Octet(x, 0);
      forall k | at <= k < at + n - 1
        ensures b[k] == Octet(x / 256, at + n - 2 - k)
      {
        assert b[k] == Octet(x, at + n - 1 - k);
      }
      JoinOctets(b, at, n - 1, x / 256);
    }
  }

  lemma {:induction false} OctetsOfJoin(b: seq<byte>, at: nat, n: nat)
    requires at + n <= |b|
    ensures HasField(b, at, n, Join(b, at, n))
  {
    if n > 0 {
      OctetsOfJoin(b, at, n - 1);
      var x, y := Join(b, at, n), Join(b, at, n - 1);
      assert x / 256 == y && x % 256 == b[at + n - 1];
      forall k | at <= k < at + n
        ensures b[k] == Octet(x, at + n - 1 - k)
      {
        if k < at + n - 1 {
          assert Octet(x, at + n - 1 - k) == Octet(y, at + n - 2 - k);
        }
      }
    }
  }

  // --- Single bits ------------------------------------------------------------------------------

  function Pow2(n: nat): (r: nat)
    ensures r > 0
  {
    if n == 0 then 1 else 2 * Pow2(n - 1)
  }

  /** Whether bit k of x is set: x & (1 << k). */
  predicate Bit(x: nat, k: nat)
    decreases k
  {
    if k == 0 then x % 2 == 1 else Bit(x / 2, k - 1)
  }

  /** That is division by a power of two, and its remainder. */
  lemma {:induction false} BitIs(x: nat, k: nat)
    ensures Bit(x, k) <==> (x / Pow2(k)) % 2 == 1
    decreases k
  {
    if k > 0 {
      BitIs(x / 2, k - 1);
      Division.DivideTwice(x, 2, Pow2(k - 1));
    }
  }

  /** The bitwise or of two numbers. */
  function Or(x: nat, y: nat): (r: nat)
    ensures x <= r && y <= r <= x + y
  {
    if x == 0 then y
    else if y == 0 then x
    else 2 * Or(x / 2, y / 2) + if x % 2 == 1 || y % 2 == 1 then 1 else 0
  }

  lemma {:induction false} OrBits(x: nat, y: nat, k: nat)
    ensures Bit(Or(x, y), k) <==> Bit(x, k) || Bit(y, k)
  {
    if x == 0 || y == 0 {
      ZeroBits(k);
    } else if k > 0 {
      OrBits(x / 2, y / 2, k - 1);
    }
  }

  lemma {:induction false} ZeroBits(k: nat)
    ensures !Bit(0, k)
  {
    if k > 0 {
      ZeroBits(k - 1);
    }
  }

  /** The or of two n-bit numbers has n bits. */
  lemma {:induction false} OrBelow(x: nat, y: nat, n: nat)
    requires x < Pow2(n) && y < Pow2(n)
    ensures Or(x, y) < Pow2(n)
  {
    if n > 0 && x > 0 && y > 0 {
      OrBelow(x / 2, y / 2, n - 1);
    }
  }

  /** Two numbers of at most n bits with the same bits are the same. */
  lemma {:induction false} SameBits(x: nat, y: nat, n: nat)
    requires x < Pow2(n) && y < Pow2(n) && forall k :: 0 <= k < n ==> (Bit(x, k) <==> Bit(y, k))
    ensures x == y
  {
    if n > 0 {
      assert Bit(x, 0) <==> Bit(y, 0);
      forall k | 0 <= k < n - 1
        ensures Bit(x / 2, k) <==> Bit(y / 2, k)
      {
        assert Bit(x, k + 1) <==> Bit(y, k + 1);
      }
      SameBits(x / 2, y / 2, n - 1);
    }
  }

  /** The bitwise or of two octets. */
  function OrOctet(x: byte, y: byte): (r: byte)
    ensures r == Or(x, y)
  {
    assert Pow2(8) == 256;
    OrBelow(x, y, 8);
    Or(x, y)
  }

  /** The assignments that store one field, most significant octet first. */
  method PutField(b: array<byte>, at: nat, n: nat, x: nat)
    requires at + n <= b.Length
    modifies b
    ensures forall k :: 0 <= k < b.Length ==>
              b[k] == if at <= k < at + n then Octet(x, at + n - 1 - k) else old(b[k])
  {
    var i := 0;
    while i < n
      invariant 0 <= i <= n
      invariant forall k :: 0 <= k < b.Length ==>
                  b[k] == if at <= k < at + i then Octet(x, at + n - 1 - k) else old(b[k])
    {
      b[at + i] := Octet(x, n - 1 - i);
      i := i + 1;
    }
  }
}
