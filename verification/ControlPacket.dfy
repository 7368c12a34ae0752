/** MAC/ControlPacket.c. */
module ControlPackets {
  import opened Wrappers
  import opened Octets
  import Division

  /** One row of octets a frequency; bit 7 of octet 0 is slot 0. */
  type Occupancy = seq<seq<byte>>

  datatype ControlFields = ControlFields(
    nodeId0: uint64, nodeId1: uint64,
    currentFrame: uint32, currentSlot: uint8,
    collisionSlot: uint8, collisionFrequency: uint32,
    hopCount: uint16, networkTime: uint64, initTime: uint32,
    occupied: Occupancy)

  ghost predicate Shaped(o: Occupancy, freqs: nat, bytes: nat) {
    |o| == freqs && forall i :: 0 <= i < freqs ==> |o[i]| == bytes
  }

  /** The octets needed for n slots. */
  function NumberBytes(n: nat): (r: nat)
    ensures 8 * r >= n && 8 * r < n + 8
  {
    n / 8 + if n % 8 != 0 then 1 else 0
  }

  predicate Fits(freqs: nat, bytes: nat) {
    41 + freqs * bytes <= PACKET_SIZE_MAC
  }

  /** Where octet j of row i is stored. */
  function Flat(i: nat, j: nat, bytes: nat): nat {
    i * bytes + j + 41
  }

  /** The flattening stays in bounds and never stores two octets in one place. */
  lemma FlatInjective(i: nat, j: nat, i': nat, j': nat, freqs: nat, bytes: nat)
    requires i < freqs && i' < freqs && j < bytes && j' < bytes
    ensures 41 <= Flat(i, j, bytes) < 41 + freqs * bytes
    ensures Flat(i, j, bytes) == Flat(i', j', bytes) <==> i == i' && j == j'
  {
    FlatBelow(i, j, freqs, bytes);
    if i < i' {
      FlatBelow(i, j, i', bytes);
    } else if i' < i {
      FlatBelow(i', j', i, bytes);
    }
  }

  lemma FlatBelow(i: nat, j: nat, n: nat, bytes: nat)
    requires i < n && j < bytes
    ensures i * bytes + j < n * bytes
  {
    assert n * bytes == i * bytes + bytes + (n - i - 1) * bytes;
    assert (n - i - 1) * bytes >= 0;
  }

  lemma FlatInverse(i: nat, j: nat, bytes: nat)
    requires j < bytes
    ensures (Flat(i, j, bytes) - 41) / bytes == i && (Flat(i, j, bytes) - 41) % bytes == j
  {
    Division.DivModUnique(i * bytes + j, bytes, i, j);
  }

  /** Octet i of the byte string, with n the filler. */
  function ControlByte(p: ControlFields, freqs: nat, bytes: nat, n: byte, i: nat): byte
    requires Shaped(p.occupied, freqs, bytes)
  {
    if i == 0 then 1
    else if i < 9 then Octet(p.nodeId0, 8 - i)
    else if i < 17 then Octet(p.nodeId1, 16 - i)
    else if i < 21 then Octet(p.currentFrame, 20 - i)
    else if i == 21 then p.currentSlot
    else if i == 22 then p.collisionSlot
    else if i < 27 then Octet(p.collisionFrequency, 26 - i)
    else if i < 29 then Octet(p.hopCount, 28 - i)
    else if i < 37 then Octet(p.networkTime, 36 - i)
    else if i < 41 then Octet(p.initTime, 40 - i)
    else if bytes > 0 && (i - 41) / bytes < freqs then p.occupied[(i - 41) / bytes][(i - 41) % bytes]
    else n
  }

  /** controlpacket_get_packet_bytestring. */
  function Encode(p: ControlFields, freqs: nat, bytes: nat, n: byte): (b: seq<byte>)
    requires Shaped(p.occupied, freqs, bytes)
    ensures |b| == PACKET_SIZE_MAC
  {
    seq(PACKET_SIZE_MAC, i requires 0 <= i => ControlByte(p, freqs, bytes, n, i))
  }

  /**
   * networkTime as it is decoded: octet 29 is shifted by 52 where the encoder shifted by 56, and
   * or-ed into the other seven octets.
   */
  function JoinTime(b: seq<byte>): (x: uint64)
    requires |b| >= 37
  {
    var hi: nat := b[29];
    Or(hi * 0x10_0000_0000_0000, Join(b, 30, 7))
  }

  /** controlpacket_construct_packet_from_bytestring: nothing happens unless the first octet is 1. */
  function Decode(was: ControlFields, b: seq<byte>, freqs: nat, bytes: nat): ControlFields
    requires |b| == PACKET_SIZE_MAC && Fits(freqs, bytes)
  {
    if b[0] != 1 then was
    else
      ControlFields(Join(b, 1, 8), Join(b, 9, 8), Join(b, 17, 4), b[21], b[22], Join(b, 23, 4),
                    Join(b, 27, 2), JoinTime(b), Join(b, 37, 4), DecodedRows(b, freqs, bytes))
  }

  function DecodedRows(b: seq<byte>, freqs: nat, bytes: nat): (o: Occupancy)
    requires |b| == PACKET_SIZE_MAC && Fits(freqs, bytes)
    ensures Shaped(o, freqs, bytes)
  {
    seq(freqs, i requires 0 <= i < freqs =>
      seq(bytes, j requires 0 <= j < bytes => (FlatBelow(i, j, freqs, bytes); b[Flat(i, j, bytes)])))
  }

  /** What the decoder makes of a network time. */
  function ShiftedTime(t: uint64): (r: uint64)
  {
    Or((t / 0x100_0000_0000_0000) * 0x10_0000_0000_0000, t % 0x100_0000_0000_0000)
  }

  /** The network time survives exactly when its top octet is zero. */
  lemma ShiftedTimeExactIff(t: uint64)
    ensures ShiftedTime(t) == t <==> t < 0x100_0000_0000_0000
  {
    var hi, lo := t / 0x100_0000_0000_0000, t % 0x100_0000_0000_0000;
    assert Or(hi * 0x10_0000_0000_0000, lo) <= hi * 0x10_0000_0000_0000 + lo;
  }

  /** A field of an encoded packet, found and put together again. */
  lemma EncodedField(p: ControlFields, freqs: nat, bytes: nat, n: byte, at: nat, len: nat, x: nat)
    requires Shaped(p.occupied, freqs, bytes) && at + len <= PACKET_SIZE_MAC && x < Pow256(len)
    requires forall k :: at <= k < at + len ==> ControlByte(p, freqs, bytes, n, k) == Octet(x, at + len - 1 - k)
    ensures Join(Encode(p, freqs, bytes, n), at, len) == x
  {
    JoinOctets(Encode(p, freqs, bytes, n), at, len, x);
  }

  lemma EncodedRows(p: ControlFields, freqs: nat, bytes: nat, n: byte)
    requires Shaped(p.occupied, freqs, bytes) && Fits(freqs, bytes)
    ensures DecodedRows(Encode(p, freqs, bytes, n), freqs, bytes) == p.occupied
  {
    var o := DecodedRows(Encode(p, freqs, bytes, n), freqs, bytes);
    forall i | 0 <= i < freqs
      ensures o[i] == p.occupied[i]
    {
      forall j | 0 <= j < bytes
        ensures o[i][j] == p.occupied[i][j]
      {
        FlatBelow(i, j, freqs, bytes);
        FlatInverse(i, j, bytes);
      }
    }
  }

  lemma EncodedTime(p: ControlFields, freqs: nat, bytes: nat, n: byte)
    requires Shaped(p.occupied, freqs, bytes) && Fits(freqs, bytes)
    ensures JoinTime(Encode(p, freqs, bytes, n)) == ShiftedTime(p.networkTime)
  {
    var b := Encode(p, freqs, bytes, n);
    EncodedField(p, freqs, bytes, n, 29, 8, p.networkTime);
    JoinTop(b, 29, 7);
    assert Pow256(7) == 0x100_0000_0000_0000;
    TopAndRest(p.networkTime, b[29], Join(b, 30, 7));
  }

  lemma TopAndRest(t: nat, hi: byte, lo: nat)
    requires t == hi * 0x100_0000_0000_0000 + lo && lo < 0x100_0000_0000_0000
    ensures t / 0x100_0000_0000_0000 == hi && t % 0x100_0000_0000_0000 == lo
  {
  }

  lemma Reassociate(x: int, y: int)
    ensures 256 * (x * y) == x * (256 * y)
  {
  }

  /** The most significant octet of a field, apart from the others. */
  lemma {:induction false} JoinTop(b: seq<byte>, at: nat, n: nat)
    requires at + n + 1 <= |b|
    ensures Join(b, at, n + 1) == b[at] * Pow256(n) + Join(b, at + 1, n)
  {
    if n == 0 {
      assert Join(b, at, 0) == 0;
    } else {
      JoinTop(b, at, n - 1);
      Reassociate(b[at], Pow256(n - 1));
    }
  }

  /**
   * Round trip: decoding an encoded packet gives every field back, whatever the filler and whatever
   * was in the packet before, except that the network time comes back as ShiftedTime.
   */
  lemma RoundTrip(was: ControlFields, p: ControlFields, freqs: nat, bytes: nat, n: byte)
    requires Shaped(p.occupied, freqs, bytes) && Fits(freqs, bytes)
    ensures Decode(was, Encode(p, freqs, bytes, n), freqs, bytes) == p.(networkTime := ShiftedTime(p.networkTime))
  {
    EncodedField(p, freqs, bytes, n, 1, 8, p.nodeId0);
    EncodedField(p, freqs, bytes, n, 9, 8, p.nodeId1);
    EncodedField(p, freqs, bytes, n, 17, 4, p.currentFrame);
    EncodedField(p, freqs, bytes, n, 23, 4, p.collisionFrequency);
    EncodedField(p, freqs, bytes, n, 27, 2, p.hopCount);
    EncodedField(p, freqs, bytes, n, 37, 4, p.initTime);
    EncodedTime(p, freqs, bytes, n);
    EncodedRows(p, freqs, bytes, n);
  }

  /** The whole packet survives exactly when its network time is below 2^56. */
  lemma RoundTripExactIff(was: ControlFields, p: ControlFields, freqs: nat, bytes: nat, n: byte)
    requires Shaped(p.occupied, freqs, bytes) && Fits(freqs, bytes)
    ensures Decode(was, Encode(p, freqs, bytes, n), freqs, bytes) == p <==> p.networkTime < 0x100_0000_0000_0000
  {
    RoundTrip(was, p, freqs, bytes, n);
    ShiftedTimeExactIff(p.networkTime);
  }

  /** What is on the air, octet by octet: each field most significant octet first (see OctetIs), then the rows. */
  lemma Layout(p: ControlFields, freqs: nat, bytes: nat, n: byte)
    requires Shaped(p.occupied, freqs, bytes) && Fits(freqs, bytes)
    ensures var b := Encode(p, freqs, bytes, n);
      && b[0] == 1
      && HasField(b, 1, 8, p.nodeId0) && HasField(b, 9, 8, p.nodeId1) && HasField(b, 17, 4, p.currentFrame)
      && b[21] == p.currentSlot && b[22] == p.collisionSlot && HasField(b, 23, 4, p.collisionFrequency)
      && HasField(b, 27, 2, p.hopCount) && HasField(b, 29, 8, p.networkTime) && HasField(b, 37, 4, p.initTime)
      && (forall k :: 41 + freqs * bytes <= k < PACKET_SIZE_MAC ==> b[k] == n)
    ensures forall i, j :: 0 <= i < freqs && 0 <= j < bytes ==>
              var k := Flat(i, j, bytes); k < PACKET_SIZE_MAC && Encode(p, freqs, bytes, n)[k] == p.occupied[i][j]
  {
    forall k | 41 + freqs * bytes <= k < PACKET_SIZE_MAC
      ensures Encode(p, freqs, bytes, n)[k] == n
    {
      ControlByteAt(p, freqs, bytes, n, k);
    }
    forall i, j | 0 <= i < freqs && 0 <= j < bytes
      ensures var k := Flat(i, j, bytes); k < PACKET_SIZE_MAC && Encode(p, freqs, bytes, n)[k] == p.occupied[i][j]
    {
      FlatInjective(i, j, i, j, freqs, bytes);
      FlatInverse(i, j, bytes);
    }
  }

  /** ControlPacket_t, as the C code fills it in place. */
  class ControlPacket {
    const freqs: nat
    const bytes: nat
    var fields: ControlFields
    const occupied: array2<byte>

    ghost predicate Valid() {
      occupied.Length0 == freqs && occupied.Length1 == bytes && Fits(freqs, bytes)
    }

    ghost function Rows(): (o: Occupancy)
      requires Valid()
      reads occupied
      ensures Shaped(o, freqs, bytes)
    {
      seq(freqs, i requires 0 <= i < freqs reads occupied =>
        seq(bytes, j requires 0 <= j < bytes reads occupied => occupied[i, j]))
    }

    /** The packet as a value. */
    ghost function Value(): ControlFields
      requires Valid()
      reads this, occupied
    {
      fields.(occupied := Rows())
    }

    constructor (freqs: nat, bytes: nat)
      requires Fits(freqs, bytes)
      ensures Valid() && fresh(occupied) && this.freqs == freqs && this.bytes == bytes
      ensures fields == ControlFields(0, 0, 0, 0, 0, 0, 0, 0, 0, [])
    {
      this.freqs, this.bytes := freqs, bytes;
      fields := ControlFields(0, 0, 0, 0, 0, 0, 0, 0, 0, []);
      occupied := new byte[freqs, bytes]((i, j) => 0);
    }

    /** The header of the byte string. */
    method PutHeader(b: array<byte>)
      requires b.Length == PACKET_SIZE_MAC && Valid()
      modifies b
      ensures forall k :: 0 <= k < 41 ==> b[k] == ControlByte(Value(), freqs, bytes, 0, k)
    {
      b[0] := 1;
      PutField(b, 1, 8, fields.nodeId0);
      PutField(b, 9, 8, fields.nodeId1);
      PutField(b, 17, 4, fields.currentFrame);
      b[21] := fields.currentSlot;
      b[22] := fields.collisionSlot;
      PutField(b, 23, 4, fields.collisionFrequency);
      PutField(b, 27, 2, fields.hopCount);
      PutField(b, 29, 8, fields.networkTime);
      PutField(b, 37, 4, fields.initTime);
    }

    /** The occupancy rows, one after the other. */
    method PutRows(b: array<byte>)
      requires b.Length == PACKET_SIZE_MAC && Valid() && b as object != occupied
      modifies b
      ensures forall k :: 0 <= k < PACKET_SIZE_MAC && !(41 <= k < 41 + freqs * bytes) ==> b[k] == old(b[k])
      ensures forall i, j :: 0 <= i < freqs && 0 <= j < bytes ==> RowStored(b[..], i, j)
    {
      var i := 0;
      while i < freqs
        invariant 0 <= i <= freqs
        invariant forall k :: 0 <= k < PACKET_SIZE_MAC && !(41 <= k < 41 + freqs * bytes) ==> b[k] == old(b[k])
        invariant forall i', j :: 0 <= i' < i && 0 <= j < bytes ==> RowStored(b[..], i', j)
      {
        var j := 0;
        while j < bytes
          invariant 0 <= j <= bytes
          invariant forall k :: 0 <= k < PACKET_SIZE_MAC && !(41 <= k < 41 + freqs * bytes) ==> b[k] == old(b[k])
          invariant forall i', j' :: 0 <= i' < i && 0 <= j' < bytes ==> RowStored(b[..], i', j')
          invariant forall j' :: 0 <= j' < j ==> RowStored(b[..], i, j')
        {
          ghost var was := b[..];
          FlatInjective(i, j, i, j, freqs, bytes);
          b[(i * bytes) + j + 41] := occupied[i, j];
          forall i', j' | 0 <= i' < freqs && 0 <= j' < bytes && (i', j') != (i, j) && RowStored(was, i', j')
            ensures RowStored(b[..], i', j')
          {
            FlatInjective(i, j, i', j', freqs, bytes);
          }
          j := j + 1;
        }
        i := i + 1;
      }
    }

    ghost predicate RowStored(b: seq<byte>, i: nat, j: nat)
      requires Valid() && i < freqs && j < bytes
      reads occupied
    {
      Flat(i, j, bytes) < |b| && b[Flat(i, j, bytes)] == occupied[i, j]
    }

    /** The rest of the byte string. */
    method PutFiller(b: array<byte>, n: byte)
      requires b.Length == PACKET_SIZE_MAC && Valid()
      modifies b
      ensures forall k :: 0 <= k < PACKET_SIZE_MAC ==> b[k] == if k < 41 + freqs * bytes then old(b[k]) else n
    {
      var start := 41 + (freqs * bytes);
      var i := start;
      while i < PACKET_SIZE_MAC
        invariant start <= i <= PACKET_SIZE_MAC
        invariant forall k :: 0 <= k < PACKET_SIZE_MAC ==> b[k] == if start <= k < i then n else old(b[k])
      {
        b[i] := n;
        i := i + 1;
      }
    }

    /** One octet of the byte string, whichever loop stored it. */
    lemma AssembledAt(b: seq<byte>, n: byte, k: nat)
      requires Valid() && |b| == PACKET_SIZE_MAC && k < PACKET_SIZE_MAC
      requires k < 41 ==> b[k] == ControlByte(Value(), freqs, bytes, 0, k)
      requires forall i, j :: 0 <= i < freqs && 0 <= j < bytes ==> RowStored(b, i, j)
      requires k >= 41 + freqs * bytes ==> b[k] == n
      ensures b[k] == ControlByte(Value(), freqs, bytes, n, k)
    {
      if k >= 41 {
        ControlByteAt(Value(), freqs, bytes, n, k);
        RowOf(k, freqs, bytes);
        if k < 41 + freqs * bytes {
          assert RowStored(b, (k - 41) / bytes, (k - 41) % bytes);
        }
      }
    }

    lemma Assembled(b: seq<byte>, n: byte)
      requires Valid() && |b| == PACKET_SIZE_MAC
      requires forall k :: 0 <= k < 41 ==> b[k] == ControlByte(Value(), freqs, bytes, 0, k)
      requires forall i, j :: 0 <= i < freqs && 0 <= j < bytes ==> RowStored(b, i, j)
      requires forall k :: 41 + freqs * bytes <= k < PACKET_SIZE_MAC ==> b[k] == n
      ensures b == Encode(Value(), freqs, bytes, n)
    {
      forall k | 0 <= k < PACKET_SIZE_MAC
        ensures b[k] == ControlByte(Value(), freqs, bytes, n, k)
      {
        AssembledAt(b, n, k);
      }
    }

    lemma RowsSurvive(was: seq<byte>, b: seq<byte>)
      requires Valid() && |was| == |b|
      requires forall k :: 0 <= k < |b| && k < 41 + freqs * bytes ==> b[k] == was[k]
      requires forall i, j :: 0 <= i < freqs && 0 <= j < bytes ==> RowStored(was, i, j)
      ensures forall i, j :: 0 <= i < freqs && 0 <= j < bytes ==> RowStored(b, i, j)
    {
      forall i, j | 0 <= i < freqs && 0 <= j < bytes
        ensures RowStored(b, i, j)
      {
        FlatInjective(i, j, i, j, freqs, bytes);
        assert RowStored(was, i, j);
      }
    }

    /** controlpacket_get_packet_bytestring, for whatever filler rand() gives. */
    method GetByteString(n: byte) returns (b: array<byte>)
      requires Valid()
      ensures fresh(b) && b[..] == Encode(Value(), freqs, bytes, n)
    {
      b := new byte[PACKET_SIZE_MAC];
      PutHeader(b);
      PutRows(b);
      ghost var stored := b[..];
      PutFiller(b, n);
      RowsSurvive(stored, b[..]);
      Assembled(b[..], n);
    }

    /** The loop that reads one occupancy row. */
    method TakeRow(b: array<byte>, i: nat)
      requires Valid() && b.Length == PACKET_SIZE_MAC && b as object != occupied && i < freqs
      modifies occupied
      ensures forall j :: 0 <= j < bytes ==> RowStored(b[..], i, j)
      ensures forall i', j :: 0 <= i' < freqs && 0 <= j < bytes && i' != i ==> occupied[i', j] == old(occupied[i', j])
    {
      var j := 0;
      while j < bytes
        invariant 0 <= j <= bytes
        invariant forall j' :: 0 <= j' < j ==> RowStored(b[..], i, j')
        invariant forall i', j :: 0 <= i' < freqs && 0 <= j < bytes && i' != i ==>
                    occupied[i', j] == old(occupied[i', j])
      {
        FlatInjective(i, j, i, j, freqs, bytes);
        occupied[i, j] := b[(i * bytes) + j + 41];
        j := j + 1;
      }
    }

    /** The loops that read the occupancy rows. */
    method TakeRows(b: array<byte>)
      requires Valid() && b.Length == PACKET_SIZE_MAC && b as object != occupied
      modifies occupied
      ensures Rows() == DecodedRows(b[..], freqs, bytes)
    {
      ghost var bs := b[..];
      var i := 0;
      while i < freqs
        invariant 0 <= i <= freqs && b[..] == bs
        invariant forall i', j :: 0 <= i' < i && 0 <= j < bytes ==> RowStored(bs, i', j)
      {
        TakeRow(b, i);
        i := i + 1;
      }
      StoredRows(bs);
    }

    lemma StoredRows(b: seq<byte>)
      requires Valid() && |b| == PACKET_SIZE_MAC
      requires forall i, j :: 0 <= i < freqs && 0 <= j < bytes ==> RowStored(b, i, j)
      ensures Rows() == DecodedRows(b, freqs, bytes)
    {
      forall i | 0 <= i < freqs
        ensures Rows()[i] == DecodedRows(b, freqs, bytes)[i]
      {
        forall j | 0 <= j < bytes
          ensures Rows()[i][j] == DecodedRows(b, freqs, bytes)[i][j]
        {
          assert RowStored(b, i, j);
        }
      }
    }

    /** controlpacket_construct_packet_from_bytestring. */
    method Construct(b: array<byte>)
      requires Valid() && b.Length == PACKET_SIZE_MAC && b as object != occupied
      modifies this, occupied
      ensures Valid()
      ensures Value() == Decode(old(Value()), b[..], freqs, bytes)
    {
      if b[0] != 1 {
        return;
      }
      TakeRows(b);
      fields := ControlFields(Join(b[..], 1, 8), Join(b[..], 9, 8), Join(b[..], 17, 4), b[21], b[22],
                              Join(b[..], 23, 4), Join(b[..], 27, 2), JoinTime(b[..]), Join(b[..], 37, 4), []);
    }
  }

  /** Which row and column a position of the byte string belongs to. */
  lemma RowOf(k: nat, freqs: nat, bytes: nat)
    ensures 41 <= k < 41 + freqs * bytes <==> k >= 41 && bytes > 0 && (k - 41) / bytes < freqs
    ensures 41 <= k < 41 + freqs * bytes ==> Flat((k - 41) / bytes, (k - 41) % bytes, bytes) == k
  {
    if k >= 41 && bytes > 0 {
      var q, r := (k - 41) / bytes, (k - 41) % bytes;
      assert k - 41 == q * bytes + r;
      if q < freqs {
        FlatBelow(q, r, freqs, bytes);
      } else if q > freqs {
        FlatBelow(freqs, 0, q, bytes);
      }
    }
  }

  /** What follows the header: the occupancy rows, then the filler. */
  lemma ControlByteAt(p: ControlFields, freqs: nat, bytes: nat, n: byte, k: nat)
    requires Shaped(p.occupied, freqs, bytes) && k >= 41
    ensures k >= 41 + freqs * bytes ==> ControlByte(p, freqs, bytes, n, k) == n
    ensures k < 41 + freqs * bytes ==>
              var i, j := (k - 41) / bytes, (k - 41) % bytes;
              i < freqs && ControlByte(p, freqs, bytes, n, k) == p.occupied[i][j] && Flat(i, j, bytes) == k
  {
    RowOf(k, freqs, bytes);
  }
}
