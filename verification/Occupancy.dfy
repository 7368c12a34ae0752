/**
 * Joining the network: the SYNCHRONIZATION and TIMESLOT_AND_CHANNEL_SELECTION states of
 * MAC/MAC_StateMachine.c. The first half is about occupancy maps as values, the second is the code.
 */
module Occupancies {
  import opened Wrappers
  import opened Octets
  import opened ControlPackets
  import PM = PowerModes

  // --- Merging maps -----------------------------------------------------------------------------

  /** Octet by octet, the bitwise or of two maps. */
  function Merged(s: Occupancy, t: Occupancy, freqs: nat, bytes: nat): (o: Occupancy)
    requires Shaped(s, freqs, bytes) && Shaped(t, freqs, bytes)
    ensures Shaped(o, freqs, bytes)
  {
    seq(freqs, i requires 0 <= i < freqs =>
      seq(bytes, j requires 0 <= j < bytes => OrOctet(s[i][j], t[i][j])))
  }

  ghost predicate AllShaped(maps: seq<Occupancy>, freqs: nat, bytes: nat) {
    forall n :: 0 <= n < |maps| ==> Shaped(maps[n], freqs, bytes)
  }

  /** The first map, with all the others merged into it. */
  function MergeAll(maps: seq<Occupancy>, freqs: nat, bytes: nat): (o: Occupancy)
    requires maps != [] && AllShaped(maps, freqs, bytes)
    ensures Shaped(o, freqs, bytes)
  {
    if |maps| == 1 then maps[0]
    else Merged(MergeAll(maps[..|maps| - 1], freqs, bytes), maps[|maps| - 1], freqs, bytes)
  }

  /**
   * The slot that bit j of octet i stands for is free in a map: the bit, counted 1 to 8 from the most
   * significant, is clear in the row of every frequency.
   */
  ghost predicate FreeIn(o: Occupancy, i: nat, j: nat)
    requires 1 <= j <= 8 && forall k :: 0 <= k < |o| ==> i < |o[k]|
  {
    forall k :: 0 <= k < |o| ==> !Bit(o[k][i], 8 - j)
  }

  /** Merging loses nothing and invents nothing: a bit is set in the merged map iff it is set in some map heard. */
  lemma {:induction false} MergeAllBits(maps: seq<Occupancy>, freqs: nat, bytes: nat, k: nat, i: nat, b: nat)
    requires maps != [] && AllShaped(maps, freqs, bytes) && k < freqs && i < bytes
    ensures Bit(MergeAll(maps, freqs, bytes)[k][i], b) <==>
            exists n :: 0 <= n < |maps| && BitIn(maps[n], k, i, b)
  {
    var n := |maps| - 1;
    if n == 0 {
      assert BitIn(maps[0], k, i, b) <==> Bit(maps[0][k][i], b);
    } else {
      var before := maps[..n];
      MergeAllBits(before, freqs, bytes, k, i, b);
      var s, t := MergeAll(before, freqs, bytes), maps[n];
      OrBits(s[k][i], t[k][i], b);
      assert forall l :: 0 <= l < n ==> before[l] == maps[l];
      if Bit(t[k][i], b) {
        assert BitIn(maps[n], k, i, b);
      }
      if Bit(s[k][i], b) {
        var l :| 0 <= l < |before| && BitIn(before[l], k, i, b);
        assert BitIn(maps[l], k, i, b);
      }
    }
  }

  /** Bit b of octet i in the row of frequency k. */
  predicate BitIn(o: Occupancy, k: nat, i: nat, b: nat) {
    k < |o| && i < |o[k]| && Bit(o[k][i], b)
  }

  /** So for slots: a slot is free in the merged map iff it is free in every map heard. */
  lemma {:induction false} MergeAllFree(maps: seq<Occupancy>, freqs: nat, bytes: nat, i: nat, j: nat)
    requires maps != [] && AllShaped(maps, freqs, bytes) && i < bytes && 1 <= j <= 8
    ensures FreeIn(MergeAll(maps, freqs, bytes), i, j) <==> forall n :: 0 <= n < |maps| ==> FreeIn(maps[n], i, j)
  {
    var n := |maps| - 1;
    if n > 0 {
      var before := maps[..n];
      MergeAllFree(before, freqs, bytes, i, j);
      var s, t, o := MergeAll(before, freqs, bytes), maps[n], MergeAll(maps, freqs, bytes);
      assert forall l :: 0 <= l < n ==> before[l] == maps[l];
      forall k | 0 <= k < freqs
        ensures Bit(o[k][i], 8 - j) <==> Bit(s[k][i], 8 - j) || Bit(t[k][i], 8 - j)
      {
        OrBits(s[k][i], t[k][i], 8 - j);
      }
      assert FreeIn(o, i, j) <==> FreeIn(s, i, j) && FreeIn(t, i, j);
    }
  }

  // --- Choosing a slot ---------------------------------------------------------------------------

  /** Octet i, bit j comes before octet i', bit j'. */
  predicate Before(i: nat, j: nat, i': nat, j': nat) {
    i < i' || (i == i' && j < j')
  }

  /** The first slot, in the order of the octets and from the most significant bit, that is free on every frequency. */
  ghost predicate FirstFree(o: Occupancy, freqs: nat, bytes: nat, i: nat, j: nat)
    requires Shaped(o, freqs, bytes)
  {
    && i < bytes && 1 <= j <= 8 && FreeIn(o, i, j)
    && (forall i', j' :: 0 <= i' < bytes && 1 <= j' <= 8 && Before(i', j', i, j) ==> !FreeIn(o, i', j'))
  }

  ghost predicate NoneFree(o: Occupancy, freqs: nat, bytes: nat)
    requires Shaped(o, freqs, bytes)
  {
    forall i, j :: 0 <= i < bytes && 1 <= j <= 8 ==> !FreeIn(o, i, j)
  }

  /** The number of the slot that bit j of octet i stands for. */
  function SlotOf(i: nat, j: nat): int {
    8 * i + (j - 1)
  }

  /** The number the code stores for it, m octets to a row, in a uint8_t. */
  function StoredSlot(m: nat, i: nat, j: nat): uint8
    requires j >= 1
  {
    (m * i + (j - 1)) % 256
  }

  /** The stored number is that of the chosen slot exactly when m - 8 times i is a multiple of 256. */
  lemma StoredSlotExactIff(m: nat, i: nat, j: nat)
    requires 1 <= j <= 8 && i < m <= 32
    ensures StoredSlot(m, i, j) == SlotOf(i, j) <==> ((m - 8) * i) % 256 == 0
  {
    var t, s := m * i + (j - 1), SlotOf(i, j);
    assert t - s == (m - 8) * i;
    CongruentIff(t, s);
  }

  lemma CongruentIff(t: int, s: int)
    requires 0 <= s < 256
    ensures t % 256 == s <==> (t - s) % 256 == 0
  {
  }

  /** With at most 128 slots that is: only in the first octet, or when a row has exactly eight octets. */
  lemma StoredSlotExactIffSmall(m: nat, i: nat, j: nat)
    requires 1 <= j <= 8 && i < m <= 16
    ensures StoredSlot(m, i, j) == SlotOf(i, j) <==> i == 0 || m == 8
  {
    StoredSlotExactIff(m, i, j);
    var d := (m - 8) * i;
    if i > 0 && m > 8 {
      ProductBounds(m - 8, i, 8, 15);
    } else if i > 0 && m < 8 {
      ProductBounds(8 - m, i, 8, 15);
      assert d == -((8 - m) * i);
    }
  }

  lemma ProductBounds(x: int, y: int, a: int, b: int)
    requires 1 <= x <= a && 1 <= y <= b
    ensures 1 <= x * y <= a * b
  {
    assert x * y <= a * y <= a * b;
  }

  /**
   * What goes wrong otherwise: when a row has fewer than eight octets and the first free slot is not in the first
   * one, the number stored names an earlier slot, which is taken on some frequency.
   */
  lemma StoredSlotIsTaken(o: Occupancy, freqs: nat, m: nat, i: nat, j: nat)
    requires Shaped(o, freqs, m) && FirstFree(o, freqs, m, i, j) && 0 < i && m < 8
    ensures var p := StoredSlot(m, i, j);
      && p < SlotOf(i, j) && p / 8 < m && !FreeIn(o, p / 8, p % 8 + 1)
  {
    StoredSmall(m, i, j);
    EarlierSlot(StoredSlot(m, i, j), i, j);
  }

  /** With so few octets nothing wraps, and the number stored is too small. */
  lemma StoredSmall(m: nat, i: nat, j: nat)
    requires 1 <= j <= 8 && 0 < i < m < 8
    ensures StoredSlot(m, i, j) < SlotOf(i, j) && StoredSlot(m, i, j) < 8 * m
  {
    var x := m * i;
    ProductBounds(m, i, 7, 7);
    assert x == 8 * i - (8 - m) * i;
    ProductBounds(8 - m, i, 8, 8);
    assert (x + (j - 1)) % 256 == x + (j - 1);
  }

  /** A slot with a smaller number comes earlier in the order of the octets. */
  lemma EarlierSlot(p: nat, i: nat, j: nat)
    requires p < SlotOf(i, j) && 1 <= j <= 8
    ensures Before(p / 8, p % 8 + 1, i, j)
  {
    assert p == 8 * (p / 8) + p % 8;
  }

  // --- The code ------------------------------------------------------------------------------------

  /** What one turn of the listening loop meets: perhaps a control packet, and which timers have expired. */
  datatype SyncEvent = SyncEvent(heard: Option<ControlFields>, slotExpired: bool, frameExpired: bool)

  datatype SyncOutcome =
    | Failed    // E_MAC_EXECUTION_FAILED: no control packet in eleven attempts, or no timer to be had
    | Listening // the wake-up frame has not come yet
    | Synced    // next state TIMESLOT_AND_CHANNEL_SELECTION

  ghost predicate HeardShaped(attempts: seq<Option<ControlFields>>, events: seq<SyncEvent>, freqs: nat, bytes: nat) {
    && (forall n :: 0 <= n < |attempts| && attempts[n].Some? ==> Shaped(attempts[n].value.occupied, freqs, bytes))
    && (forall n :: 0 <= n < |events| && events[n].heard.Some? ==> Shaped(events[n].heard.value.occupied, freqs, bytes))
  }

  /** The control packets of the first k turns. */
  function Later(events: seq<SyncEvent>, k: nat): seq<ControlFields>
    requires k <= |events|
  {
    if k == 0 then []
    else Later(events, k - 1) + if events[k - 1].heard.Some? then [events[k - 1].heard.value] else []
  }

  function Maps(packets: seq<ControlFields>): (r: seq<Occupancy>)
    ensures |r| == |packets|
  {
    seq(|packets|, n requires 0 <= n < |packets| => packets[n].occupied)
  }

  lemma {:induction false} LaterShaped(events: seq<SyncEvent>, k: nat, freqs: nat, bytes: nat)
    requires k <= |events| && HeardShaped([], events, freqs, bytes)
    ensures AllShaped(Maps(Later(events, k)), freqs, bytes)
  {
    if k > 0 {
      LaterShaped(events, k - 1, freqs, bytes);
      var before, after := Later(events, k - 1), Later(events, k);
      forall n | 0 <= n < |after|
        ensures Shaped(after[n].occupied, freqs, bytes)
      {
        if n < |before| {
          assert after[n] == before[n] && Maps(before)[n] == before[n].occupied;
        }
      }
    }
  }

  /** The hop count is read into a uint8_t before it is compared. */
  function Nearest(hops: uint16, p: ControlFields): uint16 {
    if p.hopCount % 256 < hops then p.hopCount % 256 else hops
  }

  function NearestOf(packets: seq<ControlFields>): uint16 {
    if packets == [] then 0xffff else Nearest(NearestOf(packets[..|packets| - 1]), packets[|packets| - 1])
  }

  /** The node's count of frames after the first k turns. */
  function FrameAfter(frame: uint32, events: seq<SyncEvent>, k: nat): uint32
    requires k <= |events|
  {
    if k == 0 then frame
    else
      var before := FrameAfter(frame, events, k - 1);
      if events[k - 1].frameExpired then PM.Inc32(before) else before
  }

  /** The loop guard compares with the wake-up frame minus one, in uint32_t. */
  function LastFrame(wakeup: uint32): uint32 {
    if wakeup == 0 then 0xffff_ffff else wakeup - 1
  }

  /** What one more control packet adds. */
  lemma OneMoreHeard(heard: seq<ControlFields>, p: ControlFields, freqs: nat, bytes: nat)
    requires heard != [] && AllShaped(Maps(heard), freqs, bytes) && Shaped(p.occupied, freqs, bytes)
    ensures AllShaped(Maps(heard + [p]), freqs, bytes)
    ensures MergeAll(Maps(heard + [p]), freqs, bytes)
         == Merged(MergeAll(Maps(heard), freqs, bytes), p.occupied, freqs, bytes)
    ensures NearestOf((heard + [p])[1..]) == Nearest(NearestOf(heard[1..]), p)
  {
    assert (heard + [p])[1..] == heard[1..] + [p];
    assert (heard[1..] + [p])[..|heard| - 1] == heard[1..];
    assert Maps(heard + [p]) == Maps(heard) + [p.occupied];
    assert (Maps(heard) + [p.occupied])[..|heard|] == Maps(heard);
  }

  // --- What these functions are ------------------------------------------------------------------

  /** The first control packet heard is the one at the first attempt that hears any. */
  lemma {:induction false} FirstHeardIff(attempts: seq<Option<ControlFields>>, k: nat)
    requires k < |attempts| && (forall j :: 0 <= j < k ==> attempts[j] == None) && attempts[k].Some?
    ensures FirstHeard(attempts) == attempts[k]
  {
    if k > 0 {
      assert forall j :: 0 <= j < k - 1 ==> attempts[1..][j] == attempts[j + 1];
      assert attempts[1..][k - 1] == attempts[k];
      FirstHeardIff(attempts[1..], k - 1);
    }
  }

  lemma {:induction false} NoneHeardIff(attempts: seq<Option<ControlFields>>)
    ensures FirstHeard(attempts) == None <==> forall j :: 0 <= j < |attempts| ==> attempts[j] == None
  {
    if attempts != [] {
      var rest := attempts[1..];
      NoneHeardIff(rest);
      assert forall j :: 0 <= j < |rest| ==> rest[j] == attempts[j + 1];
      if attempts[0] == None && FirstHeard(attempts) == None {
        forall j | 0 <= j < |attempts| ensures attempts[j] == None {
          assert j > 0 ==> attempts[j] == rest[j - 1];
        }
      }
    }
  }

  /** The packets of the first k turns are those heard in them, no other and none left out. */
  lemma {:induction false} LaterIff(events: seq<SyncEvent>, k: nat, p: ControlFields)
    requires k <= |events|
    ensures p in Later(events, k) <==> exists i :: 0 <= i < k && events[i].heard == Some(p)
  {
    if k > 0 {
      LaterIff(events, k - 1, p);
      if i :| 0 <= i < k && events[i].heard == Some(p) {
        assert i < k - 1 || i == k - 1;
      }
    }
  }

  /** The least hop count of some packets, in eight bits, or 0xffff. */
  ghost predicate HopsLeast(hops: uint16, packets: seq<ControlFields>) {
    && (packets == [] ==> hops == 0xffff)
    && (forall k :: 0 <= k < |packets| ==> hops <= packets[k].hopCount % 256)
    && (packets != [] ==> exists k :: 0 <= k < |packets| && hops == packets[k].hopCount % 256)
  }

  /** The hop count is the least of those heard, each read into eight bits, and stays at 0xffff without any. */
  lemma {:induction false} NearestIsLeast(packets: seq<ControlFields>)
    ensures HopsLeast(NearestOf(packets), packets)
  {
    if packets != [] {
      var n := |packets| - 1;
      var before := packets[..n];
      NearestIsLeast(before);
      forall k | 0 <= k < |packets|
        ensures NearestOf(packets) <= packets[k].hopCount % 256
      {
        assert k < n ==> before[k] == packets[k];
      }
      if NearestOf(packets) == packets[n].hopCount % 256 {
        assert 0 <= n < |packets|;
      } else {
        var k :| 0 <= k < |before| && NearestOf(before) == before[k].hopCount % 256;
        assert NearestOf(packets) == packets[k].hopCount % 256;
      }
    }
  }

  /** The turns in which the frame timer had expired. */
  ghost function FrameEnds(events: seq<SyncEvent>, k: nat): set<nat>
    requires k <= |events|
  {
    set i: nat | i < k && events[i].frameExpired
  }

  /** The node's count of frames goes up by one for each of these turns, in 32 bits. */
  lemma {:induction false} FramesCounted(frame: uint32, events: seq<SyncEvent>, k: nat)
    requires k <= |events|
    ensures FrameAfter(frame, events, k) == (frame + |FrameEnds(events, k)|) % 0x1_0000_0000
  {
    if k == 0 {
      assert FrameEnds(events, k) == {};
    } else {
      FramesCounted(frame, events, k - 1);
      var before := FrameEnds(events, k - 1);
      if events[k - 1].frameExpired {
        assert FrameEnds(events, k) == before + {k - 1};
      } else {
        assert FrameEnds(events, k) == before;
      }
    }
  }

  /** As many frames have ended that the node's count, which began at first, has reached the wake-up frame less one. */
  ghost predicate Woken(first: uint32, wakeup: uint32, events: seq<SyncEvent>, turns: nat)
    requires turns <= |events|
  {
    (first + |FrameEnds(events, turns)|) % 0x1_0000_0000 >= (wakeup - 1) % 0x1_0000_0000
  }

  lemma WokenIff(first: uint32, wakeup: uint32, events: seq<SyncEvent>, turns: nat)
    requires turns <= |events|
    ensures FrameAfter(first, events, turns) >= LastFrame(wakeup) <==> Woken(first, wakeup, events, turns)
  {
    FramesCounted(first, events, turns);
  }

  lemma LaterHops(p: ControlFields, events: seq<SyncEvent>, turns: nat)
    requires turns <= |events|
    ensures HopsLeast(NearestOf(([p] + Later(events, turns))[1..]), Later(events, turns))
  {
    assert ([p] + Later(events, turns))[1..] == Later(events, turns);
    NearestIsLeast(Later(events, turns));
  }

  /** A node that is joining the network. */
  class JoiningNode {
    const freqs: nat
    const bytes: nat
    const cells: array2<byte> // _occupied_frequencies_slots
    var hopCount: uint16
    var networkTime: uint64
    var initTime: uint32
    var wakeupFrame: uint32
    var selectedSlot: uint8
    var channel: nat // which of the frequencies was chosen
    var macNext: PM.MacState

    ghost predicate Valid() {
      cells.Length0 == freqs && cells.Length1 == bytes && 0 < freqs && 0 < bytes <= 32
    }

    ghost function Table(): (o: Occupancy)
      requires Valid()
      reads cells
      ensures Shaped(o, freqs, bytes)
    {
      seq(freqs, i requires 0 <= i < freqs reads cells =>
        seq(bytes, j requires 0 <= j < bytes reads cells => cells[i, j]))
    }

    constructor (freqs: nat, bytes: nat, wakeupFrame: uint32)
      requires 0 < freqs && 0 < bytes <= 32
      ensures Valid() && fresh(cells) && this.freqs == freqs && this.bytes == bytes && this.wakeupFrame == wakeupFrame
    {
      this.freqs, this.bytes, this.wakeupFrame := freqs, bytes, wakeupFrame;
      hopCount, networkTime, initTime, selectedSlot, channel := 0, 0, 0, 0, 0;
      macNext := PM.NONE;
      cells := new byte[freqs, bytes]((i, j) => 0);
    }

    /** memcpy of a received map over the node's own. */
    method CopyTable(o: Occupancy)
      requires Valid() && Shaped(o, freqs, bytes)
      modifies cells
      ensures Table() == o
    {
      forall i, j | 0 <= i < freqs && 0 <= j < bytes {
        cells[i, j] := o[i][j];
      }
      assert forall i :: 0 <= i < freqs ==> Table()[i] == o[i];
    }

    /** One row of the merge. */
    method MergeRow(o: Occupancy, i: nat)
      requires Valid() && Shaped(o, freqs, bytes) && i < freqs
      modifies cells
      ensures forall j :: 0 <= j < bytes ==> cells[i, j] == OrOctet(old(cells[i, j]), o[i][j])
      ensures forall i', j :: 0 <= i' < freqs && 0 <= j < bytes && i' != i ==> cells[i', j] == old(cells[i', j])
    {
      var j := 0;
      while j < bytes
        invariant 0 <= j <= bytes
        invariant forall j' :: 0 <= j' < j ==> cells[i, j'] == OrOctet(old(cells[i, j']), o[i][j'])
        invariant forall j' :: j <= j' < bytes ==> cells[i, j'] == old(cells[i, j'])
        invariant forall i', j :: 0 <= i' < freqs && 0 <= j < bytes && i' != i ==> cells[i', j] == old(cells[i', j])
      {
        cells[i, j] := OrOctet(cells[i, j], o[i][j]);
        j := j + 1;
      }
    }

    /** For each frequency, OR all the slots of the received map into the node's own. */
    method MergeTable(o: Occupancy)
      requires Valid() && Shaped(o, freqs, bytes)
      modifies cells
      ensures Table() == Merged(old(Table()), o, freqs, bytes)
    {
      ghost var was := Table();
      var i := 0;
      while i < freqs
        invariant 0 <= i <= freqs
        invariant forall i', j :: 0 <= i' < i && 0 <= j < bytes ==> cells[i', j] == OrOctet(was[i'][j], o[i'][j])
        invariant forall i', j :: i <= i' < freqs && 0 <= j < bytes ==> cells[i', j] == was[i'][j]
      {
        MergeRow(o, i);
        i := i + 1;
      }
      assert forall i :: 0 <= i < freqs ==> Table()[i] == Merged(was, o, freqs, bytes)[i];
    }

    /** Up to eleven attempts to hear a first control packet. */
    method HearFirst(attempts: seq<Option<ControlFields>>) returns (first: Option<ControlFields>)
      requires |attempts| == 11
      ensures first == FirstHeard(attempts)
    {
      var count := 0;
      while count <= 10
        invariant 0 <= count <= 11
        invariant FirstHeard(attempts) == FirstHeard(attempts[count..])
      {
        if attempts[count] == None {
          assert attempts[count..][1..] == attempts[count + 1..];
          count := count + 1;
          continue;
        }
        break;
      }
      if count == 11 {
        return None;
      }
      first := attempts[count];
    }

    /** What the node has made of the control packets it has heard. */
    ghost predicate Gathered(heard: seq<ControlFields>)
      requires Valid()
      reads this`hopCount, cells
    {
      && heard != [] && AllShaped(Maps(heard), freqs, bytes)
      && Table() == MergeAll(Maps(heard), freqs, bytes)
      && hopCount == NearestOf(heard[1..])
    }

    /** One more control packet. */
    method HearOne(ghost heard: seq<ControlFields>, p: ControlFields)
      requires Valid() && Shaped(p.occupied, freqs, bytes) && Gathered(heard)
      modifies this`hopCount, cells
      ensures Gathered(heard + [p])
    {
      var hops := p.hopCount % 256;
      if hops < hopCount {
        hopCount := hops;
      }
      MergeTable(p.occupied);
      OneMoreHeard(heard, p, freqs, bytes);
    }

    /** The radio side of one turn. */
    method HearTurn(ghost p: ControlFields, events: seq<SyncEvent>, n: nat)
      requires Valid() && n < |events| && HeardShaped([], events, freqs, bytes) && Gathered([p] + Later(events, n))
      modifies this`hopCount, cells
      ensures Gathered([p] + Later(events, n + 1))
    {
      ghost var heard := [p] + Later(events, n);
      if events[n].heard.Some? {
        HearOne(heard, events[n].heard.value);
        assert [p] + Later(events, n + 1) == heard + [events[n].heard.value];
      } else {
        assert [p] + Later(events, n + 1) == heard;
      }
    }

    /** One turn: the radio side, and the count of frames. */
    method ListenTurn(ghost p: ControlFields, ghost frame: uint32, currentFrame: uint32, events: seq<SyncEvent>, n: nat)
      returns (nextFrame: uint32)
      requires Valid() && n < |events| && HeardShaped([], events, freqs, bytes) && Gathered([p] + Later(events, n))
      requires currentFrame == FrameAfter(frame, events, n)
      modifies this`hopCount, cells
      ensures Gathered([p] + Later(events, n + 1))
      ensures nextFrame == FrameAfter(frame, events, n + 1)
    {
      HearTurn(p, events, n);
      nextFrame := if events[n].frameExpired then PM.Inc32(currentFrame) else currentFrame;
    }

    /** The listening loop, from frame onwards, until the wake-up frame or the end of the events. */
    method Listen(ghost p: ControlFields, frame: uint32, events: seq<SyncEvent>)
      returns (woken: bool, ghost turns: nat)
      requires Valid() && HeardShaped([], events, freqs, bytes) && Gathered([p])
      modifies this`hopCount, cells
      ensures turns <= |events| && Gathered([p] + Later(events, turns))
      ensures woken <==> FrameAfter(frame, events, turns) >= LastFrame(wakeupFrame)
      ensures !woken ==> turns == |events|
    {
      var currentFrame := frame;
      var n := 0;
      assert [p] + Later(events, 0) == [p];
      while currentFrame < LastFrame(wakeupFrame) && n < |events|
        invariant 0 <= n <= |events| && Gathered([p] + Later(events, n))
        invariant currentFrame == FrameAfter(frame, events, n)
        decreases |events| - n
      {
        currentFrame := ListenTurn(p, frame, currentFrame, events, n);
        n := n + 1;
      }
      woken, turns := currentFrame >= LastFrame(wakeupFrame), n;
    }

    /**
     * The SYNCHRONIZATION state of a node that is not the first. Afterwards the table is the merge of every
     * map heard, from the first packet to the last, and the hop count the least one heard after the first;
     * the node is synchronized when as many frames have ended as its wake-up frame asks for, and only then goes on. It
     * fails without a packet, or when the slot or the frame timer cannot be set (timersSet).
     */
    method Synchronize(attempts: seq<Option<ControlFields>>, timersSet: bool, events: seq<SyncEvent>)
      returns (outcome: SyncOutcome, ghost turns: nat)
      requires Valid() && |attempts| == 11 && HeardShaped(attempts, events, freqs, bytes)
      modifies this, cells
      ensures Valid()
      ensures outcome == Failed <==> FirstHeard(attempts) == None || !timersSet
      ensures macNext == if outcome == Synced then PM.TIMESLOT_AND_CHANNEL_SELECTION else old(macNext)
      ensures outcome == Synced ==> PM.UpdateMac(PM.SYNCHRONIZATION, macNext) == (macNext, PM.TransitionSuccess)
      ensures FirstHeard(attempts).Some? ==>
                var first := FirstHeard(attempts).value;
                && turns <= |events| && Gathered([first] + Later(events, turns))
                && networkTime == first.networkTime && initTime == first.initTime
                && wakeupFrame == (old(wakeupFrame) + first.currentFrame) % 0x1_0000_0000
                && HopsLeast(hopCount, Later(events, turns))
                && (timersSet ==> (outcome == Synced <==> Woken(first.currentFrame, wakeupFrame, events, turns)))
                && (outcome == Failed ==> turns == 0)
                && (outcome == Listening ==> turns == |events|)
    {
      turns := 0;
      hopCount := 0xffff;
      networkTime := 0;
      var first := HearFirst(attempts);
      if first == None {
        return Failed, turns;
      }
      FirstHeardIn(attempts);
      var p := first.value;
      networkTime := p.networkTime;
      initTime := p.initTime;
      CopyTable(p.occupied);
      assert Maps([p]) == [p.occupied];
      wakeupFrame := (wakeupFrame + p.currentFrame) % 0x1_0000_0000;
      if !timersSet {
        assert [p] + Later(events, 0) == [p];
        LaterHops(p, events, 0);
        return Failed, turns;
      }
      var woken: bool;
      woken, turns := Listen(p, p.currentFrame, events);
      LaterHops(p, events, turns);
      WokenIff(p.currentFrame, wakeupFrame, events, turns);
      if woken {
        macNext := PM.TIMESLOT_AND_CHANNEL_SELECTION;
        outcome := Synced;
      } else {
        outcome := Listening;
      }
    }

    /** Is bit j of octet i clear in every row? */
    method Available(i: nat, j: nat) returns (available: bool)
      requires Valid() && i < bytes && 1 <= j <= 8
      ensures available <==> FreeIn(Table(), i, j)
    {
      available := true;
      var k := 0;
      while k < freqs
        invariant 0 <= k <= freqs
        invariant available <==> forall k' :: 0 <= k' < k ==> !Bit(Table()[k'][i], 8 - j)
      {
        if Bit(cells[k, i], 8 - j) {
          available := false;
        }
        assert Table()[k][i] == cells[k, i];
        k := k + 1;
      }
    }

    /**
     * The search: it finds a slot iff some slot is free on every frequency, and then chooses the first such slot;
     * freq stands for rand() % MAX_NUMBER_FREQS.
     */
    method SelectSlot(freq: nat) returns (found: bool, ghost octet: nat, ghost bit: nat)
      requires Valid() && freq < freqs
      modifies this`selectedSlot, this`channel
      ensures !found <==> NoneFree(Table(), freqs, bytes)
      ensures found ==> FirstFree(Table(), freqs, bytes, octet, bit)
      ensures found ==> selectedSlot == StoredSlot(bytes, octet, bit) && channel == freq
      ensures !found ==> selectedSlot == old(selectedSlot) && channel == old(channel)
    {
      found, octet, bit := false, 0, 1;
      ghost var o := Table();
      var i := 0;
      while i < bytes
        invariant 0 <= i <= bytes && !found
        invariant forall i', j' :: 0 <= i' < i && 1 <= j' <= 8 ==> !FreeIn(o, i', j')
        invariant selectedSlot == old(selectedSlot) && channel == old(channel)
      {
        var j := 1;
        while j <= 8
          invariant 1 <= j <= 9 && !found
          invariant forall j' :: 1 <= j' < j ==> !FreeIn(o, i, j')
          invariant selectedSlot == old(selectedSlot) && channel == old(channel)
        {
          found := Available(i, j);
          if found {
            channel := freq;
            selectedSlot := (bytes * i + (j - 1)) % 256;
            octet, bit := i, j;
            break;
          }
          j := j + 1;
        }
        if found {
          break;
        }
        i := i + 1;
      }
    }

    /**
     * The TIMESLOT_AND_CHANNEL_SELECTION state of a node that is not the first. When the frame timer can be set the
     * node is to go on to MEDIUM_ACCESS iff some slot is free on every frequency, and otherwise back to
     * SYNCHRONIZATION.
     */
    method SelectTimeslot(freq: nat, timerSet: bool) returns (failed: bool, ghost octet: nat, ghost bit: nat)
      requires Valid() && freq < freqs
      modifies this`selectedSlot, this`channel, this`macNext
      ensures failed <==> !timerSet
      ensures failed ==> macNext == old(macNext) && selectedSlot == old(selectedSlot) && channel == old(channel)
      ensures !failed ==> macNext == if NoneFree(Table(), freqs, bytes) then PM.SYNCHRONIZATION else PM.MEDIUM_ACCESS
      ensures !failed ==>
                PM.UpdateMac(PM.TIMESLOT_AND_CHANNEL_SELECTION, macNext) == (macNext, PM.TransitionSuccess)
      ensures !failed && macNext == PM.MEDIUM_ACCESS ==>
                && FirstFree(Table(), freqs, bytes, octet, bit)
                && selectedSlot == StoredSlot(bytes, octet, bit) && channel == freq
    {
      failed, octet, bit := !timerSet, 0, 1;
      if failed {
        return;
      }
      var found: bool;
      found, octet, bit := SelectSlot(freq);
      macNext := if found then PM.MEDIUM_ACCESS else PM.SYNCHRONIZATION;
    }
  }

  /** The first control packet heard in a series of attempts. */
  function FirstHeard(attempts: seq<Option<ControlFields>>): Option<ControlFields> {
    if attempts == [] then None
    else if attempts[0].Some? then attempts[0]
    else FirstHeard(attempts[1..])
  }

  lemma {:induction false} FirstHeardIn(attempts: seq<Option<ControlFields>>)
    requires FirstHeard(attempts).Some?
    ensures FirstHeard(attempts) in attempts
  {
    if attempts[0] == None {
      FirstHeardIn(attempts[1..]);
    }
  }

  /**
   * End to end: a node that has merged what it heard, and then selects, finds a slot iff some slot is free in
   * every map heard, and the slot it finds is free in every map heard while every earlier slot is taken in some.
   */
  lemma SelectionIsLeastOverHeard(heard: seq<ControlFields>, freqs: nat, bytes: nat, i: nat, j: nat)
    requires heard != [] && AllShaped(Maps(heard), freqs, bytes)
    ensures var o := MergeAll(Maps(heard), freqs, bytes);
      && (NoneFree(o, freqs, bytes) <==>
            forall i, j :: 0 <= i < bytes && 1 <= j <= 8 ==> !FreeInAll(heard, freqs, bytes, i, j))
      && (FirstFree(o, freqs, bytes, i, j) <==>
            && i < bytes && 1 <= j <= 8 && FreeInAll(heard, freqs, bytes, i, j)
            && forall i', j' :: 0 <= i' < bytes && 1 <= j' <= 8 && Before(i', j', i, j) ==>
                 !FreeInAll(heard, freqs, bytes, i', j'))
  {
    var o := MergeAll(Maps(heard), freqs, bytes);
    forall i, j | 0 <= i < bytes && 1 <= j <= 8
      ensures FreeIn(o, i, j) <==> FreeInAll(heard, freqs, bytes, i, j)
    {
      MergeAllFree(Maps(heard), freqs, bytes, i, j);
      assert forall n :: 0 <= n < |heard| ==> Maps(heard)[n] == heard[n].occupied;
    }
  }

  /** No control packet heard says that the slot is taken on any frequency. */
  ghost predicate FreeInAll(heard: seq<ControlFields>, freqs: nat, bytes: nat, i: nat, j: nat)
    requires AllShaped(Maps(heard), freqs, bytes) && i < bytes && 1 <= j <= 8
  {
    forall n :: 0 <= n < |heard| ==> Shaped(Maps(heard)[n], freqs, bytes) && FreeIn(heard[n].occupied, i, j)
  }
}
