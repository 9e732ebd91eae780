/**
 From an Annex B stream to what an RFC 6184 receiver delivers. The reference `Transmission` says for
 every unit by its index how it is numbered, clocked, marked and repeated; the packetizer is shown to
 send exactly that, and the receiver to recover from it exactly the units whose last fragment says so.
 */
module EndToEnd {
  import opened Bytes
  import opened Rtp
  import opened Nal
  import opened Depacketizer
  import opened H264
  import opened AnnexB

  // --- What is sent for each unit -----------------------------------------------------------

  /** Unit `j` is the last of its access unit, as far as the separators tell. */
  predicate Marked(us: seq<Unit>, j: nat)
    requires j + 1 < |us|
  {
    us[j + 1].long && !us[j].Nal().IsPsOrAud()
  }

  /** The packets of unit `j` are sent twice. */
  predicate Doubled(us: seq<Unit>, j: nat)
    requires j + 1 < |us|
  {
    Marked(us, j) && !us[j + 1].Nal().IsNalType(NAL_AUD)
  }

  function PacketCount(u: Unit): nat {
    if u.payload == [] then 0 else |Payloads(u.payload)|
  }

  function FirstNumber(us: seq<Unit>, j: nat, sent: nat): nat
    requires j <= |us|
  {
    if j == 0 then sent else FirstNumber(us, j - 1, sent) + PacketCount(us[j - 1])
  }

  function TickOf(us: seq<Unit>, j: nat): nat
    requires j < |us|
  {
    if j == 0 then (if us[0].long then 1 else 0)
    else TickOf(us, j - 1) + if Marked(us, j - 1) then 1 else 0
  }

  function UnitPackets(us: seq<Unit>, j: nat, sent: nat): seq<Packet>
    requires j + 1 < |us|
  {
    PacketsOf(us[j].Nal().(shouldMark := Marked(us, j)), FirstNumber(us, j, sent), TickOf(us, j))
  }

  function Copies(us: seq<Unit>, j: nat, sent: nat): seq<Packet>
    requires j + 1 < |us|
  {
    var packets := UnitPackets(us, j, sent);
    if Doubled(us, j) then packets + packets else packets
  }

  /** What is sent for the units from `j` on; the last two of a stream are never sent. */
  function Transmission(us: seq<Unit>, j: nat, sent: nat): seq<Packet>
    decreases |us| - j
  {
    if j + 2 >= |us| then [] else Copies(us, j, sent) + Transmission(us, j + 1, sent)
  }

  /** The unit held back after the whole stream, with the next number and the tick. */
  function HeldAfter(us: seq<Unit>, sent: nat): Held {
    var n := |us| - 2;
    if n < 0 then Initial(sent).held else Held(us[n].Nal(), FirstNumber(us, n, sent), TickOf(us, n))
  }

  lemma ReleaseUnit(us: seq<Unit>, j: nat, sent: nat)
    requires j + 1 < |us|
    ensures Release(Held(us[j].Nal(), FirstNumber(us, j, sent), TickOf(us, j)),
                    Cut(us[j + 1].long, us[j + 1].Nal()))
         == Sending(Held(us[j + 1].Nal(), FirstNumber(us, j + 1, sent), TickOf(us, j + 1)),
                    Copies(us, j, sent))
  {
    var held := Held(us[j].Nal(), FirstNumber(us, j, sent), TickOf(us, j));
    assert us[j].Nal().(shouldMark := false) == us[j].Nal();
    ReleaseIs(held, Cut(us[j + 1].long, us[j + 1].Nal()), UnitPackets(us, j, sent));
  }

  /** The packetizer, holding unit `j`, sends the rest of the stream as the reference says. */
  lemma {:induction false} ReleaseStream(us: seq<Unit>, j: nat, sent: nat)
    requires j + 2 <= |us|
    ensures ReleaseAll(Held(us[j].Nal(), FirstNumber(us, j, sent), TickOf(us, j)), CompletedCuts(us[j + 1..]))
         == Sending(HeldAfter(us, sent), Transmission(us, j, sent))
    decreases |us| - j
  {
    if j + 2 < |us| {
      ReleaseUnit(us, j, sent);
      ReleaseStream(us, j + 1, sent);
      var cuts := CompletedCuts(us[j + 1..]);
      assert us[j + 1..][1..] == us[j + 2..];
      assert cuts[0] == Cut(us[j + 1].long, us[j + 1].Nal()) && cuts[1..] == CompletedCuts(us[j + 2..]);
    }
  }

  /** The first unit finds nothing held back. */
  lemma ReleaseWhole(us: seq<Unit>, sent: nat)
    ensures ReleaseAll(Initial(sent).held, CompletedCuts(us))
         == Sending(HeldAfter(us, sent), Transmission(us, 0, sent))
  {
    if |us| >= 2 {
      var cuts, held := CompletedCuts(us), Initial(sent).held;
      assert cuts[0] == Cut(us[0].long, us[0].Nal()) && cuts[1..] == CompletedCuts(us[1..]);
      ReleaseIs(held, cuts[0], []);
      assert Release(held, cuts[0]) == Sending(Held(us[0].Nal(), sent, TickOf(us, 0)), []);
      ReleaseStream(us, 0, sent);
      AppendNothing(Transmission(us, 0, sent));
    }
  }

  /**
   The whole run, for any chunking of a conforming stream: the packets sent, the last unit with its start
   code in the buffer, and the one before it held back.
   */
  lemma StreamTransmission(us: seq<Unit>, chunks: seq<seq<byte>>, sent: nat)
    requires ConformingStream(us) && Flatten(chunks) == Stream(us)
    ensures Splittable(Initial(sent).buffer + Flatten(chunks))
    ensures FeedAll(Initial(sent), chunks)
         == Output(State(LastOctets(us), HeldAfter(us, sent)), Transmission(us, 0, sent))
  {
    SplitStream(us);
    AppendNothing(Stream(us));
    AnyChunking(Initial(sent), chunks);
    ReleaseWhole(us, sent);
  }

  lemma PacketOfUnit(us: seq<Unit>, j: nat, sent: nat, k: nat)
    requires j + 1 < |us| && us[j].payload != [] && k < PacketCount(us[j])
    ensures |UnitPackets(us, j, sent)| == PacketCount(us[j])
    ensures UnitPackets(us, j, sent)[k]
         == Packet((FirstNumber(us, j, sent) + k) % SEQUENCE_MODULUS, TickOf(us, j),
                   Marked(us, j) && k == PacketCount(us[j]) - 1, Payloads(us[j].payload)[k])
  {
    HeaderAt(Payloads(us[j].payload), FirstNumber(us, j, sent), TickOf(us, j), k);
  }

  lemma PacketsOfUnit(us: seq<Unit>, j: nat, sent: nat)
    requires j + 1 < |us| && us[j].payload != []
    ensures var packets, n := UnitPackets(us, j, sent), PacketCount(us[j]);
            && |packets| == n
            && forall k :: 0 <= k < n ==>
                 packets[k] == Packet((FirstNumber(us, j, sent) + k) % SEQUENCE_MODULUS, TickOf(us, j),
                                      Marked(us, j) && k == n - 1, Payloads(us[j].payload)[k])
  {
    forall k | 0 <= k < PacketCount(us[j])
      ensures UnitPackets(us, j, sent)[k]
           == Packet((FirstNumber(us, j, sent) + k) % SEQUENCE_MODULUS, TickOf(us, j),
                     Marked(us, j) && k == PacketCount(us[j]) - 1, Payloads(us[j].payload)[k])
    {
      PacketOfUnit(us, j, sent, k);
    }
  }

  /** The types by table 7-1 of H.264: 7 and 8 are parameter sets, 9 is an access unit delimiter. */
  lemma MarkedMeans(us: seq<Unit>, j: nat)
    requires j + 1 < |us| && us[j].payload != [] && us[j + 1].payload != []
    ensures var kind := us[j].payload[0] & 0x1F;
            Marked(us, j) <==> us[j + 1].long && kind != 7 && kind != 8 && kind != 9
    ensures Doubled(us, j) <==> Marked(us, j) && us[j + 1].payload[0] & 0x1F != 9
  {
  }

  /**
   Marker and multiplicity of unit `j`: the marker is on its last packet, in every copy, iff the next
   unit has a long separator and unit `j` is no SPS, PPS or AUD; it is sent twice iff moreover the next
   unit is no AUD. Its packets carry its tick, which goes up after every marked unit, and numbers that
   continue those of the unit before.
   */
  lemma MarkerAndMultiplicity(us: seq<Unit>, j: nat, sent: nat)
    requires j + 2 < |us| && us[j].payload != [] && us[j + 1].payload != []
    ensures var kind := us[j].payload[0] & 0x1F;
            var marked := us[j + 1].long && kind != 7 && kind != 8 && kind != 9;
            var twice := marked && us[j + 1].payload[0] & 0x1F != 9;
            var packets, n := UnitPackets(us, j, sent), |Payloads(us[j].payload)|;
            && |packets| == n
            && (forall k :: 0 <= k < n ==>
                 packets[k] == Packet((FirstNumber(us, j, sent) + k) % 0x1_0000, TickOf(us, j),
                                      marked && k == n - 1, Payloads(us[j].payload)[k]))
            && Transmission(us, j, sent)
               == (if twice then packets + packets else packets) + Transmission(us, j + 1, sent)
            && TickOf(us, j + 1) == TickOf(us, j) + (if marked then 1 else 0)
            && FirstNumber(us, j + 1, sent) == FirstNumber(us, j, sent) + n
  {
    MarkedMeans(us, j);
    PacketsOfUnit(us, j, sent);
  }

  // --- What is received ---------------------------------------------------------------------

  /** The payloads of the units that a receiver can tell to be complete. */
  function Complete(us: seq<Unit>): seq<seq<byte>> {
    if us == [] then []
    else Kept(us[0].payload) + Complete(us[1..])
  }

  /** Unit `j` can be carried, and does not wrap the numbering if it is sent twice. */
  predicate Carriable(us: seq<Unit>, j: nat)
    requires j + 1 < |us|
  {
    && us[j].payload != [] && Carried(us[j].payload)
    && (Doubled(us, j) ==> PacketCount(us[j]) < 0x1_0000)
  }

  lemma ReceiveCopies(r: Receiver, us: seq<Unit>, j: nat, sent: nat)
    requires j + 1 < |us| && Carriable(us, j)
    requires r.next == FirstNumber(us, j, sent) % SEQUENCE_MODULUS
    ensures ReceiveAll(r, Copies(us, j, sent))
            == AfterUnit(r, us[j].payload, FirstNumber(us, j + 1, sent) % SEQUENCE_MODULUS)
  {
    var packets := UnitPackets(us, j, sent);
    var nal := us[j].Nal().(shouldMark := Marked(us, j));
    var first, tick := FirstNumber(us, j, sent), TickOf(us, j);
    ReceiveUnit(r, nal, first, tick);
    if Doubled(us, j) {
      ReceiveRepeat(ReceiveAll(r, packets), nal, first, tick);
      ReceiveAppend(r, packets, packets);
    }
  }

  ghost predicate CarriableFrom(us: seq<Unit>, j: nat) {
    forall i :: j <= i < |us| - 2 ==> Carriable(us, i)
  }

  /** The units that have been sent when the whole stream has arrived, from unit `j` on. */
  function SentFrom(us: seq<Unit>, j: nat): seq<Unit> {
    if j + 2 >= |us| then [] else us[j..|us| - 2]
  }

  lemma {:induction false} ReceiveTransmission(r: Receiver, us: seq<Unit>, j: nat, sent: nat)
    requires j <= |us| && CarriableFrom(us, j)
    requires r.next == FirstNumber(us, j, sent) % SEQUENCE_MODULUS
    ensures ReceiveAll(r, Transmission(us, j, sent)).delivered == r.delivered + Complete(SentFrom(us, j))
    decreases |us| - j
  {
    if j + 2 >= |us| {
      AppendNothing(r.delivered);
    } else {
      assert Carriable(us, j);
      ReceiveCopies(r, us, j, sent);
      var r' := ReceiveAll(r, Copies(us, j, sent));
      ReceiveAppend(r, Copies(us, j, sent), Transmission(us, j + 1, sent));
      ReceiveTransmission(r', us, j + 1, sent);
      CompleteFrom(us, j);
      AppendAssociates(r.delivered, Kept(us[j].payload), Complete(SentFrom(us, j + 1)));
    }
  }

  lemma CompleteFrom(us: seq<Unit>, j: nat)
    requires j + 2 < |us|
    ensures Complete(SentFrom(us, j)) == Kept(us[j].payload) + Complete(SentFrom(us, j + 1))
  {
    assert SentFrom(us, j)[1..] == SentFrom(us, j + 1);
  }

  /** What a receiver that knows the first number has delivered after the whole stream, however chunked. */
  function Received(chunks: seq<seq<byte>>, sent: nat): seq<seq<byte>>
    requires Splittable(Initial(sent).buffer + Flatten(chunks))
  {
    var out := FeedAll(Initial(sent), chunks);
    ReceiveAll(Receiver(sent % 0x1_0000, None, []), out.packets).delivered
  }

  /**
   End to end: for every chunking of every conforming stream, the receiver delivers, in order, exactly
   those units before the last two whose fragmentation ends with an E bit. The last unit waits in the
   buffer with its start code, the one before it is held back.
   */
  lemma StreamRecovered(us: seq<Unit>, chunks: seq<seq<byte>>, sent: nat)
    requires ConformingStream(us) && CarriableFrom(us, 0)
    requires Flatten(chunks) == Stream(us)
    ensures Splittable(Initial(sent).buffer + Flatten(chunks))
    ensures Received(chunks, sent) == Complete(SentFrom(us, 0))
    ensures var st := FeedAll(Initial(sent), chunks).state;
            && st.buffer == LastOctets(us)
            && st.held.last == if |us| < 2 then NO_UNIT else us[|us| - 2].Nal()
  {
    StreamTransmission(us, chunks, sent);
    ReceiveTransmission(Receiver(sent % SEQUENCE_MODULUS, None, []), us, 0, sent);
    AppendNothing(Complete(SentFrom(us, 0)));
  }

  // --- What is lost -------------------------------------------------------------------------

  function AllPayloads(us: seq<Unit>): seq<seq<byte>> {
    if us == [] then [] else [us[0].payload] + AllPayloads(us[1..])
  }

  /** A unit whose last fragment is full: a size from 1200 on, of 1 modulo 1200. */
  predicate FullLastFragment(size: nat) {
    size >= 1200 && size % 1200 == 1
  }

  ghost predicate NoFullLastFragment(us: seq<Unit>) {
    forall u :: u in us ==> !FullLastFragment(|u.payload|)
  }

  lemma NotTerminated(size: nat)
    ensures Terminated(size) <==> !FullLastFragment(size)
  {
  }

  lemma NoneFullStep(us: seq<Unit>)
    requires us != []
    ensures NoFullLastFragment(us) <==> !FullLastFragment(|us[0].payload|) && NoFullLastFragment(us[1..])
  {
    assert us == [us[0]] + us[1..];
  }

  lemma {:induction false} NothingLostIff(us: seq<Unit>)
    ensures |Complete(us)| <= |us| == |AllPayloads(us)|
    ensures Complete(us) == AllPayloads(us) <==> NoFullLastFragment(us)
  {
    if us != [] {
      NothingLostIff(us[1..]);
      NoneFullStep(us);
      NotTerminated(|us[0].payload|);
      if !Terminated(|us[0].payload|) {
        assert |Complete(us)| < |AllPayloads(us)|;
      } else {
        assert Complete(us)[1..] == Complete(us[1..]);
        assert AllPayloads(us)[1..] == AllPayloads(us[1..]);
      }
    }
  }

  /** The receiver gets every unit sent iff none of them fills its last fragment. */
  lemma StreamRecoveredWholeIff(us: seq<Unit>, chunks: seq<seq<byte>>, sent: nat)
    requires ConformingStream(us) && CarriableFrom(us, 0)
    requires Flatten(chunks) == Stream(us)
    ensures Splittable(Initial(sent).buffer + Flatten(chunks))
    ensures Received(chunks, sent) == AllPayloads(SentFrom(us, 0))
       <==> NoFullLastFragment(SentFrom(us, 0))
  {
    StreamRecovered(us, chunks, sent);
    NothingLostIff(SentFrom(us, 0));
  }

  function LossySlice(): seq<byte> {
    [0x65] + seq(1200, _ => 1)
  }

  /** A slice of 1201 octets, followed by two short slices with long start codes. */
  function LossyStream(): seq<Unit> {
    [Unit(true, LossySlice(), 0), Unit(true, [0x41], 0), Unit(true, [0x41], 0)]
  }

  lemma LossySliceIs()
    ensures var s := LossySlice();
            |s| == 1201 && s[0] == 0x65 && s[1200] == 1 && forall q :: 0 <= q < |s| ==> !SeparatorAt(s, q)
    ensures |Payloads(LossySlice())| == 1 && Complete([LossyStream()[0]]) == []
  {
    var s := LossySlice();
    assert forall k :: 0 <= k < |s| ==> s[k] != 0;
    FragmentsAt(s, 0);
    assert FragmentCount(1200) == 1;
  }

  lemma LossyStreamIs()
    ensures var us := LossyStream();
            ConformingStream(us) && Doubled(us, 0) && CarriableFrom(us, 0) && SentFrom(us, 0) == [us[0]]
  {
    var us := LossyStream();
    LossySliceIs();
    assert us[0].Conforming() && us[1].Conforming() && us[1] == us[2];
    assert us[1].long && us[0].Nal().header == 0x65;
    assert Carriable(us, 0);
  }

  /** The code does lose a unit, and does send one twice. */
  lemma UnitLost(chunks: seq<seq<byte>>, sent: nat)
    requires Flatten(chunks) == Stream(LossyStream())
    ensures var us := LossyStream();
            && ConformingStream(us) && CarriableFrom(us, 0) && Doubled(us, 0)
            && Splittable(Initial(sent).buffer + Flatten(chunks))
            && Received(chunks, sent) == []
  {
    LossyStreamIs();
    LossySliceIs();
    StreamRecovered(LossyStream(), chunks, sent);
  }
}
