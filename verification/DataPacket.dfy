/** MAC/DataPacket.c. */
module DataPackets {
  import opened Wrappers
  import opened Octets

  /** Room for data in a byte string. */
  const MAX_DATA: nat := PACKET_SIZE_MAC - 18

  datatype DataFields = DataFields(tag: byte, dest0: uint64, dest1: uint64, data: seq<byte>)

  /** What datapacket_clear leaves: type -1, nothing else. */
  const CLEARED: DataFields := DataFields(0xff, 0, 0, [])

  /** The size field is one octet. */
  predicate Sized(p: DataFields) {
    |p.data| < 256
  }

  function DataByte(p: DataFields, i: nat): byte
    requires Sized(p)
  {
    if i == 0 then p.tag
    else if i < 9 then Octet(p.dest0, 8 - i)
    else if i < 17 then Octet(p.dest1, 16 - i)
    else if i == 17 then |p.data|
    else if i - 18 < |p.data| then p.data[i - 18]
    else 0
  }

  /** datapacket_get_packet_bytestring; what does not fit is dropped. */
  function Encode(p: DataFields): (b: seq<byte>)
    requires Sized(p)
    ensures |b| == PACKET_SIZE_MAC
  {
    seq(PACKET_SIZE_MAC, i requires 0 <= i => DataByte(p, i))
  }

  /** The size field of a byte string. */
  function SizeOf(b: seq<byte>): nat
    requires |b| == PACKET_SIZE_MAC
  {
    b[17]
  }

  /** datapacket_construct_from_bytestring; nothing when the size field reaches beyond the byte string. */
  function Decode(b: seq<byte>): (p: Option<DataFields>)
    requires |b| == PACKET_SIZE_MAC
    ensures p.Some? ==> Sized(p.value)
  {
    if SizeOf(b) > MAX_DATA then None
    else Some(DataFields(b[0], Join(b, 1, 8), Join(b, 9, 8), b[18..18 + SizeOf(b)]))
  }

  /** Round trip, for exactly the packets whose data fits. */
  lemma RoundTripIff(p: DataFields)
    requires Sized(p)
    ensures Decode(Encode(p)) == Some(p) <==> |p.data| <= MAX_DATA
  {
    var b := Encode(p);
    if |p.data| <= MAX_DATA {
      JoinOctets(b, 1, 8, p.dest0);
      JoinOctets(b, 9, 8, p.dest1);
      assert b[18..18 + |p.data|] == p.data;
    }
  }

  /** A byte string with nothing but zeros after its data. */
  ghost predicate ZeroPadded(b: seq<byte>)
    requires |b| == PACKET_SIZE_MAC
  {
    SizeOf(b) <= MAX_DATA && forall i :: 18 + SizeOf(b) <= i < PACKET_SIZE_MAC ==> b[i] == 0
  }

  /** The other direction: re-encoding what was decoded gives the same bytes exactly when they were zero padded. */
  lemma ReencodeIff(b: seq<byte>)
    requires |b| == PACKET_SIZE_MAC
    ensures Decode(b).Some? && Encode(Decode(b).value) == b <==> ZeroPadded(b)
  {
    if SizeOf(b) <= MAX_DATA {
      var c := Encode(Decode(b).value);
      OctetsOfJoin(b, 1, 8);
      OctetsOfJoin(b, 9, 8);
      forall i | 0 <= i < 18 + SizeOf(b)
        ensures c[i] == b[i]
      {
      }
      forall i | 18 + SizeOf(b) <= i < PACKET_SIZE_MAC
        ensures c[i] == 0
      {
      }
      if c == b {
        forall i | 18 + SizeOf(b) <= i < PACKET_SIZE_MAC
          ensures b[i] == 0
        {
          assert b[i] == c[i];
        }
      }
    }
  }

  /** What is on the air, octet by octet. */
  lemma Layout(p: DataFields)
    requires Sized(p)
    ensures var b := Encode(p);
      && b[0] == p.tag && b[17] == |p.data|
      && HasField(b, 1, 8, p.dest0) && HasField(b, 9, 8, p.dest1)
      && (forall k :: 18 <= k < PACKET_SIZE_MAC ==> b[k] == if k - 18 < |p.data| then p.data[k - 18] else 0)
  {
  }

  /** DataPacket_t. */
  class DataPacket {
    var tag: byte
    var size: byte
    var dest0: uint64
    var dest1: uint64
    var data: array<byte>

    ghost predicate Valid()
      reads this
    {
      data.Length == size
    }

    ghost function Value(): (p: DataFields)
      requires Valid()
      reads this, data
      ensures Sized(p)
    {
      DataFields(tag, dest0, dest1, data[..])
    }

    constructor ()
      ensures Valid() && fresh(data) && Value() == CLEARED
    {
      tag, size, dest0, dest1 := 0xff, 0, 0, 0;
      data := new byte[0];
    }

    method Clear()
      modifies this
      ensures Valid() && fresh(data) && Value() == CLEARED == DataFields(0xff, 0, 0, [])
    {
      tag, size, dest0, dest1 := 0xff, 0, 0, 0;
      data := new byte[0];
    }

    /** What does not fit is dropped, as write_element does; through a plain pointer it goes past the buffer. */
    method GetByteString() returns (b: array<byte>)
      requires Valid()
      ensures fresh(b) && b[..] == Encode(Value())
    {
      b := new byte[PACKET_SIZE_MAC];
      b[0] := tag;
      PutField(b, 1, 8, dest0);
      PutField(b, 9, 8, dest1);
      b[17] := size;
      ghost var p := Value();
      var n: nat := size;
      assert forall k :: 0 <= k < 18 ==> b[k] == DataByte(p, k);
      var i := 0;
      while i < n
        invariant 0 <= i <= n
        invariant forall k :: 0 <= k < 18 + i && k < PACKET_SIZE_MAC ==> b[k] == DataByte(p, k)
      {
        if i + 18 < PACKET_SIZE_MAC {
          b[i + 18] := data[i];
        }
        i := i + 1;
      }
      while i < PACKET_SIZE_MAC - 18
        invariant n <= i && (n <= PACKET_SIZE_MAC - 18 ==> i <= PACKET_SIZE_MAC - 18)
        invariant forall k :: 0 <= k < 18 + i && k < PACKET_SIZE_MAC ==> b[k] == DataByte(p, k)
      {
        b[i + 18] := 0;
        i := i + 1;
      }
    }

    /** Octets read beyond the byte string may be anything. */
    method Construct(b: array<byte>)
      requires b.Length == PACKET_SIZE_MAC
      modifies this
      ensures Valid() && fresh(data)
      ensures Decode(b[..]).Some? ==> Value() == Decode(b[..]).value
      ensures Decode(b[..]) == None ==>
                && tag == b[0] && dest0 == Join(b[..], 1, 8) && dest1 == Join(b[..], 9, 8) && size == b[17]
                && data[..MAX_DATA] == b[18..]
    {
      tag := b[0];
      dest0 := Join(b[..], 1, 8);
      dest1 := Join(b[..], 9, 8);
      size := b[17];
      var n: nat := size;
      data := new byte[n];
      var i := 0;
      while i < n
        modifies data
        invariant 0 <= i <= n
        invariant forall k :: 0 <= k < i && k < MAX_DATA ==> data[k] == b[k + 18]
      {
        if i < MAX_DATA {
          data[i] := b[i + 18];
        } else {
          var beyond: byte := *;
          data[i] := beyond;
        }
        i := i + 1;
      }
      assert n <= MAX_DATA ==> data[..] == b[18..18 + n];
      assert n > MAX_DATA ==> data[..MAX_DATA] == b[18..];
    }
  }
}
