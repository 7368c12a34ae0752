/** The three packet formats together: type tags. */
module PacketTags {
  import opened Wrappers
  import opened Octets
  import CF = CFPackets
  import Ctl = ControlPackets
  import Data = DataPackets

  /** A byte string as one of the encoders makes it; data packets carry the types 2 to 9 that the queues accept. */
  datatype Sent =
    | CFSent(cf: CF.CFFields, cfFill: byte)
    | ControlSent(ctl: Ctl.ControlFields, ctlFill: byte)
    | DataSent(data: Data.DataFields)

  ghost predicate Sendable(s: Sent, freqs: nat, bytes: nat) {
    match s
    case CFSent(_, _) => true
    case ControlSent(p, _) => Ctl.Shaped(p.occupied, freqs, bytes)
    case DataSent(p) => Data.Sized(p) && 2 <= p.tag < 10
  }

  function OnAir(s: Sent, freqs: nat, bytes: nat): (b: seq<byte>)
    requires Sendable(s, freqs, bytes)
    ensures |b| == PACKET_SIZE_MAC
  {
    match s
    case CFSent(p, n) => CF.Encode(p, n)
    case ControlSent(p, n) => Ctl.Encode(p, freqs, bytes, n)
    case DataSent(p) => Data.Encode(p)
  }

  /**
   * No byte string has two readings: the CF decoder changes a packet only on a CF byte string and then to the
   * packet that was sent, likewise the control decoder, and the first octet tells the three kinds apart.
   */
  lemma TagsSeparate(s: Sent, freqs: nat, bytes: nat, cf: CF.CFFields, ctl: Ctl.ControlFields)
    requires Sendable(s, freqs, bytes) && Ctl.Fits(freqs, bytes)
    ensures CF.Decode(cf, OnAir(s, freqs, bytes)) == if s.CFSent? then s.cf else cf
    ensures Ctl.Decode(ctl, OnAir(s, freqs, bytes), freqs, bytes) ==
            if s.ControlSent? then s.ctl.(networkTime := Ctl.ShiftedTime(s.ctl.networkTime)) else ctl
    ensures s.CFSent? <==> OnAir(s, freqs, bytes)[0] == 0
    ensures s.ControlSent? <==> OnAir(s, freqs, bytes)[0] == 1
    ensures s.DataSent? <==> 2 <= OnAir(s, freqs, bytes)[0] < 10
  {
    match s
    case CFSent(p, n) => CF.RoundTrip(cf, p, n);
    case ControlSent(p, n) => Ctl.RoundTrip(ctl, p, freqs, bytes, n);
    case DataSent(_) =>
  }
}
