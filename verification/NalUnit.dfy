/**
 One NAL unit and its RTP packetization: a single packet below the MTU, FU-A fragments
 (section 5.8 of RFC 6184) from the MTU on.
 */
module Nal {
  import opened Bytes
  import opened Rtp

  const MTU: nat := 1200
  const NAL_IDR: byte := 5
  const NAL_SPS: byte := 7
  const NAL_PPS: byte := 8
  const NAL_AUD: byte := 9
  const NAL_FUA: byte := 28

  const TYPE_BITS: byte := 0x1F
  const START_BIT: byte := 0x80
  const END_BIT: byte := 0x40

  function NalType(header: byte): byte {
    header & TYPE_BITS
  }

  predicate IsPsOrAudHeader(header: byte) {
    NalType(header) == NAL_SPS || NalType(header) == NAL_PPS || NalType(header) == NAL_AUD
  }

  datatype NalUnit = NalUnit(data: seq<byte>, header: byte, shouldMark: bool) {

    predicate Empty() {
      data == []
    }

    predicate IsNalType(kind: byte) {
      NalType(header) == kind
    }

    predicate IsPsOrAud() {
      IsPsOrAudHeader(header)
    }

    function MakeAudPayload(): byte {
      if IsNalType(NAL_SPS) || IsNalType(NAL_PPS) || IsNalType(NAL_IDR) then 0x10 else 0x30
    }
  }

  /** The default-constructed unit, which a packetizer holds before its first separator. */
  const NO_UNIT: NalUnit := NalUnit([], 0, false)

  function MakeNal(data: seq<byte>): NalUnit
    requires data != []
  {
    NalUnit(data, data[0], false)
  }

  function SetStart(isSet: bool, header: byte): byte {
    (header & 0x7F) | (if isSet then START_BIT else 0)
  }

  function SetEnd(isSet: bool, header: byte): byte {
    (header & 0xBF) | (if isSet then END_BIT else 0)
  }

  // --- Specification of the fragmentation ---------------------------------------------------

  /** Octets carried by the fragment that starts after octet `i`. */
  function FragmentLength(size: nat, i: nat): (len: nat)
    requires i + 1 < size
    ensures 1 <= len <= MTU && i + len < size
    ensures len != MTU ==> i + 1 + len == size
  {
    if i + 1 + MTU > size then size - i - 1 else MTU
  }

  /** The FU-A packet payload for the fragment after octet `i`: indicator, FU header, octets. */
  function Fragment(data: seq<byte>, i: nat): (f: seq<byte>)
    requires i + 1 < |data|
    ensures |f| == FragmentLength(|data|, i) + 2
  {
    var len := FragmentLength(|data|, i);
    [(data[0] & 0xE0) + NAL_FUA, SetEnd(len != MTU, SetStart(i == 0, data[0] & TYPE_BITS))]
    + data[i + 1..i + 1 + len]
  }

  function Fragments(data: seq<byte>, i: nat): (fs: seq<seq<byte>>)
    decreases |data| - i
  {
    if i + 1 >= |data| then []
    else [Fragment(data, i)] + Fragments(data, i + FragmentLength(|data|, i))
  }

  function Payloads(data: seq<byte>): (ps: seq<seq<byte>>)
    requires data != []
    ensures ps != []
  {
    if |data| < MTU then [data] else Fragments(data, 0)
  }

  function MarkLast(packets: seq<Packet>): (marked: seq<Packet>)
    requires packets != []
    ensures |marked| == |packets|
  {
    packets[..|packets| - 1] + [packets[|packets| - 1].(marker := true)]
  }

  /** The packets of one unit, when `first` headers have been written before it. */
  function PacketsOf(nal: NalUnit, first: nat, tick: nat): (packets: seq<Packet>)
    ensures nal.Empty() <==> packets == []
    ensures !nal.Empty() ==> |packets| == |Payloads(nal.data)|
  {
    if nal.Empty() then []
    else
      var packets := AddHeaders(Payloads(nal.data), first, tick);
      if nal.shouldMark then MarkLast(packets) else packets
  }

  // --- The packetizing loop -----------------------------------------------------------------

  lemma UnrollFragments(vec: seq<seq<byte>>, data: seq<byte>, i: nat)
    requires i + 1 < |data|
    ensures vec + Fragments(data, i)
         == (vec + [Fragment(data, i)]) + Fragments(data, i + FragmentLength(|data|, i))
  {
  }

  /** One pass of the fragmenting loop: indicator, FU header with its start and end bits, octets. */
  method MakeFragment(data: seq<byte>, i: nat, first: bool) returns (tmp: seq<byte>)
    requires i + 1 < |data|
    requires first <==> i == 0
    ensures tmp == Fragment(data, i)
  {
    var len := if i + 1 + MTU > |data| then |data| - i - 1 else MTU;
    var nalHead := data[0];
    var fuIdentifier := (nalHead & 0xE0) + NAL_FUA;
    var fuHeader := nalHead & TYPE_BITS;
    fuHeader := SetStart(first, fuHeader);
    fuHeader := SetEnd(len != MTU, fuHeader);
    tmp := [fuIdentifier, fuHeader] + data[i + 1..i + 1 + len];
  }

  /** The fragmenting loop of `Packetize`, for units from the MTU on. */
  method FragmentUnit(data: seq<byte>) returns (vec: seq<seq<byte>>)
    requires |data| >= MTU
    ensures vec == Payloads(data)
  {
    vec := [];
    var first, i := true, 0;
    while i + 1 < |data|
      invariant 0 <= i < |data|
      invariant first <==> i == 0
      invariant vec + Fragments(data, i) == Payloads(data)
      decreases |data| - 1 - i
    {
      var tmp := MakeFragment(data, i, first);
      first := false;
      UnrollFragments(vec, data, i);
      vec := vec + [tmp];
      i := i + (|tmp| - 2);
    }
  }

  method Packetize(nal: NalUnit, rtp: RtpSession) returns (ret: seq<Packet>)
    modifies rtp`sent
    ensures ret == PacketsOf(nal, old(rtp.sent), rtp.tick)
    ensures rtp.sent == old(rtp.sent) + |ret|
  {
    ret := [];
    if nal.Empty() {
      return;
    }
    var vec := [nal.data];
    if |nal.data| >= MTU {
      vec := FragmentUnit(nal.data);
    }
    var packets := rtp.Outgoing(vec);
    ret := packets[..|packets| - 1];
    var last := packets[|packets| - 1];
    if nal.shouldMark {
      last := last.(marker := true);
    }
    ret := ret + [last];
  }

  // --- What the fragments look like ---------------------------------------------------------

  /** S, the first bit of the FU header. */
  predicate StartBit(fragment: seq<byte>)
    requires |fragment| >= 2
  {
    fragment[1] & 0x80 != 0
  }

  /** E, the second bit of the FU header. */
  predicate EndBit(fragment: seq<byte>)
    requires |fragment| >= 2
  {
    fragment[1] & 0x40 != 0
  }

  predicate BothBits(fragment: seq<byte>) {
    |fragment| >= 2 && StartBit(fragment) && EndBit(fragment)
  }

  /** The fragment that closes a unit of this size carries the E bit. */
  predicate Terminated(size: nat) {
    size < MTU || (size - 1) % MTU != 0
  }

  /** Fragments of a string of `n` octets. */
  function FragmentCount(n: nat): nat {
    (n + MTU - 1) / MTU
  }

  /** Setting a bit changes no other; the two octets of a fragment keep what the NAL header says. */
  lemma FuHeaderBits(header: byte, start: bool, end: bool)
    ensures var fu := SetStart(start, header); (fu & 0x80 != 0 <==> start) && fu & 0x7F == header & 0x7F
    ensures var fu := SetEnd(end, header); (fu & 0x40 != 0 <==> end) && fu & 0xBF == header & 0xBF
    ensures var fu := SetEnd(end, SetStart(start, header & TYPE_BITS));
            && (fu & 0x80 != 0 <==> start) && (fu & 0x40 != 0 <==> end)
            && fu & 0x1F == header & 0x1F
    ensures var id := (header & 0xE0) + NAL_FUA; id & 0x1F == 28 && id & 0xE0 == header & 0xE0
    ensures (header & 0xE0) | (header & 0x1F) == header
  {
  }

  /** Table 7-5 of H.264: the picture types that a delimiter announces, I only before I slices. */
  lemma AudPayload(nal: NalUnit)
    ensures var kind := nal.header & 0x1F;
            nal.MakeAudPayload() == if kind == 5 || kind == 7 || kind == 8 then 0x10 else 0x30
  {
  }

  /** One fragment, seen from the unit that it is cut from. */
  lemma FragmentBits(data: seq<byte>, i: nat)
    requires i + 1 < |data|
    ensures var f, len := Fragment(data, i), FragmentLength(|data|, i);
            && f[0] & 0x1F == 28 && f[0] & 0xE0 == data[0] & 0xE0
            && f[1] & 0x1F == data[0] & 0x1F
            && (f[0] & 0xE0) | (f[1] & 0x1F) == data[0]
            && (StartBit(f) <==> i == 0) && (EndBit(f) <==> len != MTU)
            && f[2..] == data[i + 1..i + 1 + len]
  {
    FuHeaderBits(data[0], i == 0, FragmentLength(|data|, i) != MTU);
  }

  lemma CountStep(n: nat)
    ensures n > MTU ==> FragmentCount(n) == 1 + FragmentCount(n - MTU)
    ensures 0 < n <= MTU ==> FragmentCount(n) == 1
    ensures FragmentCount(0) == 0
  {
  }

  lemma {:induction false} FragmentsCount(data: seq<byte>, i: nat)
    requires i < |data|
    ensures |Fragments(data, i)| == FragmentCount(|data| - 1 - i)
    decreases |data| - i
  {
    CountStep(|data| - 1 - i);
    if i + 1 < |data| {
      FragmentsCount(data, i + FragmentLength(|data|, i));
    }
  }

  lemma {:induction false} FragmentAt(data: seq<byte>, i: nat, k: nat)
    requires i < |data| && k < |Fragments(data, i)|
    ensures i + 1200 * k + 1 < |data| && Fragments(data, i)[k] == Fragment(data, i + 1200 * k)
    decreases k
  {
    if k > 0 {
      var j := i + FragmentLength(|data|, i);
      assert Fragments(data, i)[k] == Fragments(data, j)[k - 1];
      FragmentAt(data, j, k - 1);
      assert i + 1200 * k == j + 1200 * (k - 1);
    }
  }

  /** The k-th fragment starts after octet `i + 1200 * k`, and their number is the rounded-up quotient. */
  lemma FragmentsAt(data: seq<byte>, i: nat)
    requires i < |data|
    ensures |Fragments(data, i)| == FragmentCount(|data| - 1 - i)
    ensures forall k :: 0 <= k < |Fragments(data, i)| ==>
              i + 1200 * k + 1 < |data| && Fragments(data, i)[k] == Fragment(data, i + 1200 * k)
  {
    FragmentsCount(data, i);
    forall k | 0 <= k < |Fragments(data, i)|
      ensures i + 1200 * k + 1 < |data| && Fragments(data, i)[k] == Fragment(data, i + 1200 * k)
    {
      FragmentAt(data, i, k);
    }
  }

  /** Only the last fragment can be shorter than the MTU. */
  lemma LastFragment(size: nat, k: nat)
    requires size >= 1200 && 1200 * k + 1 < size
    ensures FragmentLength(size, 1200 * k) == if 1200 * k + 1201 <= size then 1200 else size - 1 - 1200 * k
    ensures FragmentLength(size, 1200 * k) != MTU <==>
            k == (size - 1 + 1199) / 1200 - 1 && (size - 1) % 1200 != 0
  {
  }

  /** The `k`-th of `n` FU-A fragments of a unit, as section 5.8 of RFC 6184 has them, but for a missing E. */
  ghost predicate IsFuA(f: seq<byte>, data: seq<byte>, k: nat, n: nat) {
    && 1200 * k + 1 < |data| && |f| >= 3
    && f[0] & 0x1F == 28 && f[0] & 0xE0 == data[0] & 0xE0 && f[1] & 0x1F == data[0] & 0x1F
    && (StartBit(f) <==> k == 0)
    && (EndBit(f) <==> k == n - 1 && (|data| - 1) % 1200 != 0)
    && f[2..] == data[1200 * k + 1..if 1200 * k + 1201 <= |data| then 1200 * k + 1201 else |data|]
  }

  lemma FragmentIsFuA(data: seq<byte>, k: nat)
    requires |data| >= 1200 && 1200 * k + 1 < |data|
    ensures IsFuA(Fragment(data, 1200 * k), data, k, (|data| - 1 + 1199) / 1200)
  {
    LastFragment(|data|, k);
    FragmentBits(data, 1200 * k);
  }

  lemma PayloadIsFuA(data: seq<byte>, k: nat)
    requires |data| >= 1200 && k < |Payloads(data)|
    ensures |Payloads(data)| == (|data| - 1 + 1199) / 1200
    ensures IsFuA(Payloads(data)[k], data, k, |Payloads(data)|)
  {
    PayloadIs(data, k);
    FragmentIsFuA(data, k);
  }

  lemma PayloadIs(data: seq<byte>, k: nat)
    requires |data| >= 1200 && k < |Payloads(data)|
    ensures |Payloads(data)| == (|data| - 1 + 1199) / 1200
    ensures 1200 * k + 1 < |data| && Payloads(data)[k] == Fragment(data, 1200 * k)
  {
    var fs := Fragments(data, 0);
    assert Payloads(data) == fs;
    FragmentsCount(data, 0);
    FragmentAt(data, 0, k);
    assert fs[k] == Fragment(data, 1200 * k);
  }

  /**
   Section 5.8 of RFC 6184: type 28, S on the first fragment only, E on no fragment but the last, NRI
   and type kept, the octets after the NAL header in pieces of 1200. The code leaves E out exactly when
   they fill the last fragment, and sets S and E together exactly on a unit of 1200 octets, which that
   section forbids.
   */
  lemma FuAShape(data: seq<byte>)
    requires |data| >= 1200
    ensures |Payloads(data)| == (|data| - 1 + 1199) / 1200
    ensures forall k :: 0 <= k < |Payloads(data)| ==> IsFuA(Payloads(data)[k], data, k, |Payloads(data)|)
    ensures (exists f :: f in Payloads(data) && BothBits(f)) <==> |data| == 1200
  {
    var fs := Payloads(data);
    PayloadIsFuA(data, 0);
    forall k | 0 <= k < |fs| ensures IsFuA(fs[k], data, k, |fs|) {
      PayloadIsFuA(data, k);
    }
    assert BothBits(fs[0]) <==> |data| == 1200;
    assert fs[0] in fs;
  }
}
