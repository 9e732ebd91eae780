/**
 A receiver of the H.264 payload format of RFC 6184, non-interleaved mode: the independent reference
 that the packetizer is measured against. It accepts the next sequence number only (the channel is
 lossless and in order, so anything else is a repeat), delivers single NAL unit packets as they are
 (section 5.6) and reassembles FU-A fragments (section 5.8).
 */
module Depacketizer {
  import opened Bytes
  import opened Rtp
  import opened Nal

  datatype Receiver = Receiver(next: nat, partial: Option<seq<byte>>, delivered: seq<seq<byte>>)

  /** Types of a single NAL unit packet (table 1 of RFC 6184). */
  predicate IsSingleType(kind: byte) {
    1 <= kind <= 23
  }

  /** The octets of one fragment join the unit under reassembly, if its start has been seen. */
  function AcceptFragment(r: Receiver, start: bool, end: bool, header: byte, octets: seq<byte>): Receiver {
    var unit :=
      if start then Some([header] + octets)
      else if r.partial.Some? then Some(r.partial.value + octets)
      else None;
    if unit.Some? && end then
      r.(partial := None, delivered := r.delivered + [unit.value])
    else
      r.(partial := unit)
  }

  function Accept(r: Receiver, payload: seq<byte>): Receiver {
    if payload == [] then r
    else if IsSingleType(payload[0] & 0x1F) then
      r.(partial := None, delivered := r.delivered + [payload])
    else if payload[0] & 0x1F == 28 && |payload| >= 2 then
      var header := (payload[0] & 0xE0) | (payload[1] & 0x1F);
      AcceptFragment(r, StartBit(payload), EndBit(payload), header, payload[2..])
    else r
  }

  function Receive(r: Receiver, p: Packet): Receiver {
    if p.seqNo == r.next
    then Accept(r.(next := (r.next + 1) % 0x1_0000), p.payload)
    else r
  }

  function ReceiveAll(r: Receiver, packets: seq<Packet>): Receiver
    decreases |packets|
  {
    if packets == [] then r else ReceiveAll(Receive(r, packets[0]), packets[1..])
  }

  lemma {:induction false} ReceiveAppend(r: Receiver, a: seq<Packet>, b: seq<Packet>)
    ensures ReceiveAll(r, a + b) == ReceiveAll(ReceiveAll(r, a), b)
    decreases |a|
  {
    if a == [] {
      assert a + b == b;
    } else {
      assert (a + b)[1..] == a[1..] + b;
      ReceiveAppend(Receive(r, a[0]), a[1..], b);
    }
  }

  lemma {:induction false} ReceiveNothing(r: Receiver, packets: seq<Packet>)
    requires forall p :: p in packets ==> p.seqNo != r.next
    ensures ReceiveAll(r, packets) == r
  {
    if packets != [] {
      assert packets[0] in packets;
      ReceiveNothing(r, packets[1..]);
    }
  }

  /** The marker bit does not matter to reassembly. */
  lemma ReceiveMarked(r: Receiver, packets: seq<Packet>)
    requires packets != []
    ensures ReceiveAll(r, MarkLast(packets)) == ReceiveAll(r, packets)
  {
    var n := |packets| - 1;
    var front, last := packets[..n], packets[n];
    assert packets == front + [last];
    ReceiveAppend(r, front, [last]);
    ReceiveAppend(r, front, [last.(marker := true)]);
  }

  /** What one unit adds to the delivery: nothing if its last fragment carries no E bit. */
  function Kept(data: seq<byte>): seq<seq<byte>> {
    if Terminated(|data|) then [data] else []
  }

  /** What a receiver holds after a whole unit: the unit delivered, or left open for want of an E bit. */
  function AfterUnit(r: Receiver, data: seq<byte>, next: nat): Receiver {
    Receiver(next, if Terminated(|data|) then None else Some(data), r.delivered + Kept(data))
  }

  /** A unit that comes out in a form for its type: a single-unit type below 1200 octets, any from there on. */
  predicate Carried(data: seq<byte>)
    requires data != []
  {
    |data| >= 1200 || IsSingleType(data[0] & 0x1F)
  }

  lemma AcceptIsFragment(r: Receiver, data: seq<byte>, i: nat)
    requires i + 1 < |data|
    ensures var len := FragmentLength(|data|, i);
            Accept(r, Fragment(data, i))
            == AcceptFragment(r, i == 0, len != MTU, data[0], data[i + 1..i + 1 + len])
  {
    FragmentBits(data, i);
  }

  lemma OneFragment(r: Receiver, data: seq<byte>, i: nat)
    requires i + 1 < |data|
    requires i != 0 ==> r.partial == Some(data[..i + 1])
    ensures var j := i + FragmentLength(|data|, i);
            Accept(r, Fragment(data, i)) ==
            if j - i != MTU then Receiver(r.next, None, r.delivered + [data])
            else Receiver(r.next, Some(data[..j + 1]), r.delivered)
  {
    var len := FragmentLength(|data|, i);
    AcceptIsFragment(r, data, i);
    var octets := data[i + 1..i + 1 + len];
    assert data[..i + 1] + octets == data[..i + len + 1];
    assert i == 0 ==> [data[0]] + octets == data[..i + len + 1];
    assert len != MTU ==> data[..i + len + 1] == data;
  }

  lemma NextNumber(n: nat)
    ensures (n % SEQUENCE_MODULUS + 1) % SEQUENCE_MODULUS == (n + 1) % SEQUENCE_MODULUS
  {
  }

  /** A fragment of full length leaves the remainder as it is. */
  lemma RemainderStays(size: nat, i: nat)
    requires i + 1 < size
    ensures var j := i + FragmentLength(size, i);
            if j + 1 < size then j == i + MTU && (size - 1 - j) % MTU == (size - 1 - i) % MTU
            else j + 1 == size && (FragmentLength(size, i) != MTU <==> (size - 1 - i) % MTU != 0)
  {
  }

  /** Reassembly inverts fragmentation, from any point of the unit on. */
  lemma {:induction false} ReceiveFragments(r: Receiver, data: seq<byte>, i: nat, first: nat, tick: nat)
    requires i + 1 < |data|
    requires r.next == first % SEQUENCE_MODULUS
    requires i != 0 ==> r.partial == Some(data[..i + 1])
    ensures var fs := Fragments(data, i);
            var last := (first + |fs|) % SEQUENCE_MODULUS;
            ReceiveAll(r, AddHeaders(fs, first, tick)) ==
            if (|data| - 1 - i) % MTU != 0 then Receiver(last, None, r.delivered + [data])
            else Receiver(last, Some(data), r.delivered)
    decreases |data| - i
  {
    var j := i + FragmentLength(|data|, i);
    var packets, rest := AddHeaders(Fragments(data, i), first, tick), Fragments(data, j);
    assert Fragments(data, i)[1..] == rest;
    assert packets[1..] == AddHeaders(rest, first + 1, tick);
    NextNumber(first);
    RemainderStays(|data|, i);
    OneFragment(r.(next := (first + 1) % SEQUENCE_MODULUS), data, i);
    if j + 1 < |data| {
      ReceiveFragments(Receive(r, packets[0]), data, j, first + 1, tick);
    } else {
      assert data[..j + 1] == data;
    }
  }

  lemma ReceivePayloads(r: Receiver, data: seq<byte>, first: nat, tick: nat)
    requires data != [] && Carried(data) && r.next == first % SEQUENCE_MODULUS
    ensures var packets := AddHeaders(Payloads(data), first, tick);
            ReceiveAll(r, packets) == AfterUnit(r, data, (first + |packets|) % SEQUENCE_MODULUS)
  {
    var packets := AddHeaders(Payloads(data), first, tick);
    if |data| < MTU {
      NextNumber(first);
      assert packets[1..] == [];
    } else {
      AppendNothing(r.delivered);
      ReceiveFragments(r, data, 0, first, tick);
    }
  }

  /** One unit sent once, to a receiver in any state. */
  lemma ReceiveUnit(r: Receiver, nal: NalUnit, first: nat, tick: nat)
    requires !nal.Empty() && Carried(nal.data)
    requires r.next == first % SEQUENCE_MODULUS
    ensures var packets := PacketsOf(nal, first, tick);
            ReceiveAll(r, packets) == AfterUnit(r, nal.data, (first + |packets|) % SEQUENCE_MODULUS)
  {
    ReceivePayloads(r, nal.data, first, tick);
    if nal.shouldMark {
      ReceiveMarked(r, AddHeaders(Payloads(nal.data), first, tick));
    }
  }

  /** A short unit of another type is taken for something else, or dropped. */
  lemma AcceptOther(r: Receiver, data: seq<byte>)
    requires data != [] && |data| < 1200 && !IsSingleType(data[0] & 0x1F)
    requires r.partial.Some? ==> |r.partial.value| >= 1200
    ensures Accept(r, data).delivered != r.delivered + [data]
  {
    if data[0] & 0x1F == 28 && |data| >= 2 {
      var header := (data[0] & 0xE0) | (data[1] & 0x1F);
      var t := AcceptFragment(r, StartBit(data), EndBit(data), header, data[2..]);
      var n := |r.delivered|;
      assert (r.delivered + [data])[n] == data;
      assert |t.delivered| > n ==> |t.delivered[n]| != |data|;
    }
  }

  /**
   Exactly which units come back from being sent once: those that the format can carry and whose last
   fragment, if any, has the E bit.
   */
  lemma ReceivedIff(r: Receiver, nal: NalUnit, first: nat, tick: nat)
    requires !nal.Empty() && r.next == first % SEQUENCE_MODULUS
    requires r.partial.Some? ==> |r.partial.value| >= 1200
    ensures ReceiveAll(r, PacketsOf(nal, first, tick)).delivered == r.delivered + [nal.data]
       <==> Carried(nal.data) && Terminated(|nal.data|)
  {
    if Carried(nal.data) {
      ReceiveUnit(r, nal, first, tick);
      if !Terminated(|nal.data|) {
        AppendNothing(r.delivered);
        assert |r.delivered| != |r.delivered + [nal.data]|;
      }
    } else {
      var packets := AddHeaders([nal.data], first, tick);
      AcceptOther(r.(next := (r.next + 1) % SEQUENCE_MODULUS), nal.data);
      assert packets[1..] == [];
      if nal.shouldMark {
        ReceiveMarked(r, packets);
      }
    }
  }

  lemma PacketNumbers(nal: NalUnit, first: nat, tick: nat, k: nat)
    requires k < |PacketsOf(nal, first, tick)|
    ensures PacketsOf(nal, first, tick)[k].seqNo == (first + k) % SEQUENCE_MODULUS
  {
    HeaderAt(Payloads(nal.data), first, tick, k);
  }

  lemma SequenceDistinct(first: nat, k: nat, n: nat)
    requires k < n < SEQUENCE_MODULUS + k
    ensures (first + k) % SEQUENCE_MODULUS != (first + n) % SEQUENCE_MODULUS
  {
  }

  /** The same packets again: every one is a repeat, as long as the unit does not wrap the numbering. */
  lemma ReceiveRepeat(r: Receiver, nal: NalUnit, first: nat, tick: nat)
    requires var n := |PacketsOf(nal, first, tick)|;
             n < SEQUENCE_MODULUS && r.next == (first + n) % SEQUENCE_MODULUS
    ensures ReceiveAll(r, PacketsOf(nal, first, tick)) == r
  {
    var packets := PacketsOf(nal, first, tick);
    var n := |packets|;
    forall p | p in packets ensures p.seqNo != r.next {
      var k :| 0 <= k < n && packets[k] == p;
      PacketNumbers(nal, first, tick, k);
      SequenceDistinct(first, k, n);
    }
    ReceiveNothing(r, packets);
  }
}
