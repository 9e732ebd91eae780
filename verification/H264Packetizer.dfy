/**
 The incremental Annex B splitter. Octets arrive in arbitrary chunks; a NAL unit leaves the buffer
 when the separator after it has been seen, and is held back once more until the following unit is
 known, because that one decides the marker bit.
 */
module H264 {
  import opened Bytes
  import opened Rtp
  import opened Nal

  // --- Separators ---------------------------------------------------------------------------

  /** The short separator 00 00 01 at index `p`. */
  predicate SeparatorAt(b: seq<byte>, p: nat) {
    p + 3 <= |b| && b[p] == 0 && b[p + 1] == 0 && b[p + 2] == 1
  }

  /** First separator at or after `from`; the length of the buffer if there is none. */
  function FindSeparator(b: seq<byte>, from: nat): (p: nat)
    ensures p == |b| || (from <= p && SeparatorAt(b, p))
    decreases |b| - from
  {
    if from + 3 > |b| then |b|
    else if SeparatorAt(b, from) then from
    else FindSeparator(b, from + 1)
  }

  lemma {:induction false} FindSeparatorIsFirst(b: seq<byte>, from: nat)
    ensures forall q :: from <= q < FindSeparator(b, from) ==> !SeparatorAt(b, q)
    decreases |b| - from
  {
    if from + 3 <= |b| && !SeparatorAt(b, from) {
      FindSeparatorIsFirst(b, from + 1);
    }
  }

  /** A separator after the one the buffer starts with. */
  predicate Found(b: seq<byte>) {
    FindSeparator(b, 4) < |b|
  }

  /** The buffer starts with a short separator, as the packetizer decides at the start of a call. */
  predicate IsShort(b: seq<byte>) {
    |b| > 3 && b[2] == 1
  }

  function HeadLength(b: seq<byte>): nat {
    if IsShort(b) then 3 else 4
  }

  /** Where the next unit starts: one octet before the separator found, if that octet is zero. */
  function CutAt(b: seq<byte>): (cut: nat)
    requires Found(b)
    ensures 3 <= cut < |b|
  {
    var p := FindSeparator(b, 4);
    if b[p - 1] == 0 then p - 1 else p
  }

  predicate HasNonZero(s: seq<byte>) {
    exists k :: 0 <= k < |s| && s[k] != 0
  }

  function StripZeros(s: seq<byte>): (r: seq<byte>)
    requires HasNonZero(s)
    ensures r != [] && r <= s && r[|r| - 1] != 0
  {
    if s[|s| - 1] != 0 then s else StripZeros(s[..|s| - 1])
  }

  /**
   The splitter is defined on this buffer: every unit cut from it has a nonzero octet. Elsewhere the
   C++ code reads before the beginning of an empty vector.
   */
  ghost predicate Splittable(b: seq<byte>)
    decreases |b|
  {
    Found(b) ==>
      && HeadLength(b) <= CutAt(b)
      && HasNonZero(b[HeadLength(b)..CutAt(b)])
      && Splittable(b[CutAt(b)..])
  }

  // --- Specification: splitting the buffer ------------------------------------------------

  /** A unit cut from the buffer, with the kind of separator before it. */
  datatype Cut = Cut(long: bool, nal: NalUnit)

  function HeadCut(b: seq<byte>): Cut
    requires Found(b) && Splittable(b)
  {
    Cut(!IsShort(b), MakeNal(StripZeros(b[HeadLength(b)..CutAt(b)])))
  }

  /** What is cut off, from the octets between the start code and the cut. */
  lemma HeadCutIs(b: seq<byte>, octets: seq<byte>, tail: seq<byte>)
    requires Found(b) && HeadLength(b) <= CutAt(b)
    requires b[HeadLength(b)..CutAt(b)] == octets && b[CutAt(b)..] == tail
    requires HasNonZero(octets) && Splittable(tail)
    ensures Splittable(b) && HeadCut(b) == Cut(!IsShort(b), MakeNal(StripZeros(octets)))
  {
  }

  datatype Pieces = Pieces(cuts: seq<Cut>, rest: seq<byte>)

  /** Cutting units off until no separator is left. */
  function Split(b: seq<byte>): (r: Pieces)
    requires Splittable(b)
    ensures !Found(r.rest)
    decreases |b|
  {
    if !Found(b) then Pieces([], b)
    else
      var tail := Split(b[CutAt(b)..]);
      Pieces([HeadCut(b)] + tail.cuts, tail.rest)
  }

  lemma UnrollSplit(b: seq<byte>, cut: Cut, tail: seq<byte>, pieces: Pieces)
    requires Splittable(b) && Found(b)
    requires cut == HeadCut(b) && tail == b[CutAt(b)..] && pieces == Split(tail)
    ensures Split(b) == Pieces([cut] + pieces.cuts, pieces.rest)
  {
  }

  /**
   The kind of separator noticed while cutting is the kind that the buffer left behind starts with,
   so it does not matter that each call looks at the buffer anew.
   */
  lemma SeparatorKindKept(b: seq<byte>)
    requires Found(b)
    ensures var rest := b[CutAt(b)..];
            |rest| > 3 ==> (IsShort(rest) <==> b[FindSeparator(b, 4) - 1] != 0)
  {
  }

  // --- Specification: sending the unit held back --------------------------------------------

  /** The unit held back, and the numbers and the clock tick for the next packets. */
  datatype Held = Held(last: NalUnit, sent: nat, tick: nat)

  datatype Sending = Sending(held: Held, packets: seq<Packet>)

  /** A long separator starts a new access unit, unless the unit before it already did. */
  predicate StartsAccessUnit(long: bool, last: NalUnit) {
    long && !last.IsPsOrAud()
  }

  /** `cut` replaces the unit held back, which is sent: doubled if an access unit starts without AUD. */
  function Release(h: Held, cut: Cut): Sending {
    var au := StartsAccessUnit(cut.long, h.last);
    var packets := PacketsOf(if au then h.last.(shouldMark := true) else h.last, h.sent, h.tick);
    Sending(Held(cut.nal, h.sent + |packets|, if au then h.tick + 1 else h.tick),
            if au && !cut.nal.IsNalType(NAL_AUD) then packets + packets else packets)
  }

  function ReleaseAll(h: Held, cuts: seq<Cut>): Sending
    decreases |cuts|
  {
    if cuts == [] then Sending(h, [])
    else
      var now := Release(h, cuts[0]);
      var later := ReleaseAll(now.held, cuts[1..]);
      Sending(later.held, now.packets + later.packets)
  }

  lemma {:induction false} ReleaseAppend(h: Held, a: seq<Cut>, b: seq<Cut>)
    ensures var first := ReleaseAll(h, a);
            var second := ReleaseAll(first.held, b);
            ReleaseAll(h, a + b) == Sending(second.held, first.packets + second.packets)
    decreases |a|
  {
    if a == [] {
      assert a + b == b;
    } else {
      assert (a + b)[1..] == a[1..] + b;
      var now := Release(h, a[0]);
      ReleaseAppend(now.held, a[1..], b);
      var first := ReleaseAll(now.held, a[1..]);
      var second := ReleaseAll(first.held, b);
      AppendAssociates(now.packets, first.packets, second.packets);
    }
  }

  lemma ReleaseOneMore(h: Held, done: seq<Cut>, cut: Cut)
    ensures var first := ReleaseAll(h, done);
            var next := Release(first.held, cut);
            ReleaseAll(h, done + [cut]) == Sending(next.held, first.packets + next.packets)
  {
    ReleaseAppend(h, done, [cut]);
    AppendNothing(Release(ReleaseAll(h, done).held, cut).packets);
  }

  /** What releasing comes to, once the packets of the unit held back are known. */
  lemma ReleaseIs(h: Held, cut: Cut, packets: seq<Packet>)
    requires packets == PacketsOf(if StartsAccessUnit(cut.long, h.last) then h.last.(shouldMark := true)
                                  else h.last, h.sent, h.tick)
    ensures var au := StartsAccessUnit(cut.long, h.last);
            Release(h, cut) ==
            Sending(Held(cut.nal, h.sent + |packets|, h.tick + if au then 1 else 0),
                    if au && !cut.nal.IsNalType(NAL_AUD) then packets + packets else packets)
  {
  }

  // --- Specification: one call --------------------------------------------------------------

  datatype State = State(buffer: seq<byte>, held: Held)

  function Initial(sent: nat): State {
    State([], Held(NO_UNIT, sent, 0))
  }

  datatype Output = Output(state: State, packets: seq<Packet>)

  function FeedChunk(st: State, data: seq<byte>): (r: Output)
    requires Splittable(st.buffer + data)
    ensures !Found(r.state.buffer)
  {
    var pieces := Split(st.buffer + data);
    var sending := ReleaseAll(st.held, pieces.cuts);
    Output(State(pieces.rest, sending.held), sending.packets)
  }

  // --- The packetizer -----------------------------------------------------------------------

  class H264Packetizer {
    var buffer: seq<byte>
    var lastNal: NalUnit
    const rtp: RtpSession

    ghost function HeldNow(): Held
      reads this`lastNal, rtp
    {
      Held(lastNal, rtp.sent, rtp.tick)
    }

    ghost function Value(): State
      reads this, rtp
    {
      State(buffer, HeldNow())
    }

    constructor (rtp: RtpSession)
      requires rtp.tick == 0
      ensures this.rtp == rtp && Value() == Initial(rtp.sent)
    {
      this.rtp := rtp;
      buffer, lastNal := [], NO_UNIT;
    }

    /** Packetizes the unit held back, now that `nal` is known to follow it, and holds back `nal`. */
    method SendLast(isShort: bool, nal: NalUnit) returns (ret: seq<Packet>)
      modifies this`lastNal, rtp
      ensures Sending(HeldNow(), ret) == Release(old(HeldNow()), Cut(!isShort, nal))
    {
      ghost var h := HeldNow();
      ret := [];
      var packets;
      if !isShort && !lastNal.IsPsOrAud() {
        lastNal := lastNal.(shouldMark := true);
        packets := Packetize(lastNal, rtp);
        rtp.UpdateTimestamp();
        if !nal.IsNalType(NAL_AUD) {
          ret := ret + packets;
          // The access unit delimiter built here is overwritten below and never sent.
          var accessUnit := [0x00, 0x00, 0x00, 0x01, 0x09] + [nal.MakeAudPayload()];
          lastNal := MakeNal(accessUnit);
        }
      } else {
        packets := Packetize(lastNal, rtp);
      }
      AppendNothing(packets);
      ret := ret + packets;
      lastNal := nal;
      ReleaseIs(h, Cut(!isShort, nal), packets);
    }

    static method PopZeros(whole: seq<byte>) returns (tmp: seq<byte>)
      requires HasNonZero(whole)
      ensures tmp == StripZeros(whole)
    {
      tmp := whole;
      while tmp[|tmp| - 1] == 0x00
        invariant HasNonZero(tmp) && StripZeros(tmp) == StripZeros(whole)
        decreases |tmp|
      {
        tmp := tmp[..|tmp| - 1];
      }
    }

    /** One pass of the loop, for the separator found at `separator`. */
    method CutUnit(isShort: bool, separator: nat) returns (packets: seq<Packet>, nextShort: bool)
      requires Splittable(buffer)
      requires separator == FindSeparator(buffer, 4) < |buffer|
      requires isShort <==> IsShort(buffer)
      modifies this, rtp
      ensures buffer == old(buffer[CutAt(buffer)..])
      ensures Sending(HeldNow(), packets) == Release(old(HeldNow()), HeadCut(old(buffer)))
      ensures |buffer| > 3 ==> (nextShort <==> IsShort(buffer))
    {
      var it := separator;
      nextShort := true;
      if buffer[it - 1] == 0x00 {
        it := it - 1;
        nextShort := false;
      }
      SeparatorKindKept(buffer);
      assert it == CutAt(buffer);
      var tmp := PopZeros(buffer[(if isShort then 3 else 4)..it]);
      packets := SendLast(isShort, MakeNal(tmp));
      buffer := buffer[it..];
    }

    method Incoming(data: seq<byte>) returns (ret: seq<Packet>)
      requires Splittable(buffer + data)
      modifies this, rtp
      ensures Output(Value(), ret) == FeedChunk(old(Value()), data)
    {
      buffer := buffer + data;
      ret := [];
      var isShort := false;
      if |buffer| > 3 && buffer[2] == 0x01 {
        isShort := true;
      }
      ghost var pieces, done := Split(buffer), [];
      AppendNothing(pieces.cuts);
      while true
        invariant Splittable(buffer)
        invariant |buffer| > 3 ==> (isShort <==> IsShort(buffer))
        invariant pieces == Pieces(done + Split(buffer).cuts, Split(buffer).rest)
        invariant ReleaseAll(old(HeldNow()), done) == Sending(HeldNow(), ret)
        decreases |buffer|
      {
        var it := FindSeparator(buffer, 4);
        if it < |buffer| {
          ghost var cut, tail := HeadCut(buffer), buffer[CutAt(buffer)..];
          UnrollSplit(buffer, cut, tail, Split(tail));
          AppendAssociates(done, [cut], Split(tail).cuts);
          var packets;
          packets, isShort := CutUnit(isShort, it);
          ReleaseOneMore(old(HeldNow()), done, cut);
          done := done + [cut];
          ret := ret + packets;
        } else {
          AppendNothing(done);
          return;
        }
      }
    }
  }
}
