/** MAC/CFPacket.c, and how the first octet keeps the three kinds of packet apart. */
module CFPackets {
  import opened Wrappers
  import opened Octets

  datatype CFFields = CFFields(node0: uint64, node1: uint64, dest0: uint64, dest1: uint64)

  function CFByte(p: CFFields, n: byte, i: nat): byte {
    if i == 0 then 0
    else if i < 9 then Octet(p.node0, 8 - i)
    else if i < 17 then Octet(p.node1, 16 - i)
    else if i < 25 then Octet(p.dest0, 24 - i)
    else if i < 33 then Octet(p.dest1, 32 - i)
    else n
  }

  /** cfpacket_get_packet_bytestring, with n the filler. */
  function Encode(p: CFFields, n: byte): (b: seq<byte>)
    ensures |b| == PACKET_SIZE_MAC
  {
    seq(PACKET_SIZE_MAC, i requires 0 <= i => CFByte(p, n, i))
  }

  /** cfpacket_construct_packet_from_bytestring: nothing happens unless the first octet is 0. */
  function Decode(was: CFFields, b: seq<byte>): CFFields
    requires |b| == PACKET_SIZE_MAC
  {
    if b[0] != 0 then was else CFFields(Join(b, 1, 8), Join(b, 9, 8), Join(b, 17, 8), Join(b, 25, 8))
  }

  /** Round trip, whatever the filler and whatever the packet held. */
  lemma RoundTrip(was: CFFields, p: CFFields, n: byte)
    ensures Decode(was, Encode(p, n)) == p
  {
    var b := Encode(p, n);
    JoinOctets(b, 1, 8, p.node0);
    JoinOctets(b, 9, 8, p.node1);
    JoinOctets(b, 17, 8, p.dest0);
    JoinOctets(b, 25, 8, p.dest1);
  }

  /** What is on the air, octet by octet. */
  lemma Layout(p: CFFields, n: byte)
    ensures var b := Encode(p, n);
      && b[0] == 0
      && HasField(b, 1, 8, p.node0) && HasField(b, 9, 8, p.node1)
      && HasField(b, 17, 8, p.dest0) && HasField(b, 25, 8, p.dest1)
      && (forall k :: 33 <= k < PACKET_SIZE_MAC ==> b[k] == n)
  {
  }

  class CFPacket {
    var fields: CFFields

    constructor ()
      ensures fields == CFFields(0, 0, 0, 0)
    {
      fields := CFFields(0, 0, 0, 0);
    }

    method GetByteString(n: byte) returns (b: array<byte>)
      ensures fresh(b) && b[..] == Encode(fields, n)
    {
      b := new byte[PACKET_SIZE_MAC];
      b[0] := 0;
      PutField(b, 1, 8, fields.node0);
      PutField(b, 9, 8, fields.node1);
      PutField(b, 17, 8, fields.dest0);
      PutField(b, 25, 8, fields.dest1);
      assert forall k :: 0 <= k < 33 ==> b[k] == CFByte(fields, n, k);
      var i := 33;
      while i < PACKET_SIZE_MAC
        invariant 33 <= i <= PACKET_SIZE_MAC
        invariant forall k :: 0 <= k < i ==> b[k] == CFByte(fields, n, k)
      {
        b[i] := n;
        i := i + 1;
      }
    }

    method Construct(b: array<byte>)
      requires b.Length == PACKET_SIZE_MAC
      modifies this
      ensures fields == Decode(old(fields), b[..])
    {
      if b[0] != 0 {
        return;
      }
      fields := CFFields(Join(b[..], 1, 8), Join(b[..], 9, 8), Join(b[..], 17, 8), Join(b[..], 25, 8));
    }
  }
}
