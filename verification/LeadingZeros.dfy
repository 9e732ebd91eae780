/**
 Byte streams with zero octets before the first start code, which Annex B of ITU-T H.264 allows. The
 packetizer takes the first octets of its buffer for a start code without looking at them, so it splits
 such a stream as meant only if the zeros and a short start code together look like a long one.
 */
module LeadingZeros {
  import opened Bytes
  import opened Nal
  import opened H264
  import opened AnnexB

  /** The same units with a long start code before the first. */
  function Lengthened(us: seq<Unit>): (vs: seq<Unit>)
    requires us != []
    ensures |vs| == |us| && vs[0].long
  {
    [us[0].(long := true)] + us[1..]
  }

  /** One zero before a short start code is the same octets as a long start code. */
  lemma ZeroBeforeShort(us: seq<Unit>, lead: nat)
    requires us != [] && !us[0].long && lead > 0
    ensures Zeros(lead) + Stream(us) == Zeros(lead - 1) + Stream(Lengthened(us))
  {
    var u, v := us[0], us[0].(long := true);
    assert Lengthened(us)[1..] == us[1..];
    assert Zeros(lead) == Zeros(lead - 1) + [0];
    assert [0] + u.Octets() == v.Octets();
    AppendAssociates(Zeros(lead - 1), [0], Stream(us));
    AppendAssociates([0], u.Octets(), Stream(us[1..]));
  }

  /** A separator after zeros that precede `c` is one of `c`, or one of the octets around its start. */
  lemma SeparatorAfterZeros(c: seq<byte>, lead: nat, q: nat)
    requires q >= lead
    ensures SeparatorAt(Zeros(lead) + c, q) <==> SeparatorAt(c, q - lead)
  {
    var b := Zeros(lead) + c;
    assert forall k :: lead <= k < |b| ==> b[k] == c[k - lead];
  }

  ghost predicate StartsLong(c: seq<byte>) {
    |c| > 4 && c[0] == 0 && c[1] == 0 && c[2] == 0 && c[3] == 1
  }

  /** With one or two zeros the first separator found is still the one after the first unit. */
  lemma FewZerosFind(c: seq<byte>, lead: nat)
    requires StartsLong(c) && 1 <= lead <= 2
    ensures FindSeparator(Zeros(lead) + c, 4) == lead + FindSeparator(c, 4)
    ensures Found(Zeros(lead) + c) <==> Found(c)
  {
    var b, p := Zeros(lead) + c, FindSeparator(c, 4);
    FindSeparatorIsFirst(c, 4);
    FindSeparatorIsFirst(b, 4);
    forall q | 4 <= q < lead + p ensures !SeparatorAt(b, q) {
      SeparatorAfterZeros(c, lead, q);
    }
    if p < |c| {
      SeparatorAfterZeros(c, lead, lead + p);
    }
  }

  /** With three zeros or more the start code itself is found, and nothing but zeros before it. */
  lemma ManyZerosUndefined(c: seq<byte>, lead: nat)
    requires StartsLong(c) && lead >= 3
    ensures !Splittable(Zeros(lead) + c)
  {
    var b := Zeros(lead) + c;
    assert forall k :: 0 <= k < lead + 3 ==> b[k] == 0;
    assert b[lead + 3] == 1;
    FindSeparatorIsFirst(b, 4);
    assert SeparatorAt(b, lead + 1);
    assert forall q :: 4 <= q < lead + 1 ==> !SeparatorAt(b, q);
    assert FindSeparator(b, 4) == lead + 1 && CutAt(b) == lead && HeadLength(b) == 4;
  }

  /** The first unit as it comes out: the tail of the start code taken for its beginning. */
  function Spoiled(u: Unit, lead: nat): Unit
    requires lead > 0
  {
    Unit(true, Zeros(lead - 1) + [1] + u.payload, u.trailing)
  }

  lemma FewZerosCut(c: seq<byte>, lead: nat)
    requires StartsLong(c) && 1 <= lead <= 2 && Found(c)
    ensures var b := Zeros(lead) + c;
            && Found(b) && CutAt(b) == lead + CutAt(c) && HeadLength(b) == 4 <= CutAt(b)
            && b[CutAt(b)..] == c[CutAt(c)..]
            && (CutAt(c) >= 4 ==> b[4..CutAt(b)] == Zeros(lead - 1) + [1] + c[4..CutAt(c)])
  {
    FewZerosFind(c, lead);
    var b, p := Zeros(lead) + c, FindSeparator(c, 4);
    assert b[lead + p - 1] == c[p - 1];
    BufferTail(c, lead, CutAt(c));
    if CutAt(c) >= 4 {
      BufferHead(c, lead, CutAt(c));
    }
  }

  lemma BufferTail(c: seq<byte>, lead: nat, cut: nat)
    requires cut <= |c|
    ensures (Zeros(lead) + c)[lead + cut..] == c[cut..]
  {
  }

  /** The first four zeros are passed over, and the other octets before the cut make up the unit. */
  lemma BufferHead(c: seq<byte>, lead: nat, cut: nat)
    requires StartsLong(c) && lead > 0 && 4 <= cut <= |c|
    ensures (Zeros(lead) + c)[4..lead + cut] == Zeros(lead - 1) + [1] + c[4..cut]
  {
    var b, front := Zeros(lead) + c, Zeros(lead - 1) + [1];
    var r := front + c[4..cut];
    forall k | 0 <= k < |r| ensures b[4 + k] == r[k] {
      if k >= lead {
        assert b[4 + k] == c[4 + k - lead] == c[4..cut][k - lead];
      }
    }
  }

  lemma LongCode(u: Unit, rest: seq<byte>)
    requires u.long && u.payload != []
    ensures StartsLong(u.Octets() + rest)
  {
    var b := u.Octets() + rest;
    assert forall k :: 0 <= k < 4 ==> b[k] == u.StartCode()[k];
  }

  lemma FirstUnitOf(us: seq<Unit>)
    requires |us| > 1 && ConformingStream(us) && us[0].long
    ensures var c := Stream(us);
            && StartsLong(c) && Found(c) && CutAt(c) >= 4
            && c[4..CutAt(c)] == us[0].payload + Zeros(us[0].trailing) && c[CutAt(c)..] == Stream(us[1..])
  {
    UnrollStream(us);
    FirstCut(us[0], us[1], us[1].payload + Zeros(us[1].trailing) + Stream(us[2..]));
    LongCode(us[0], Stream(us[1..]));
  }

  lemma FewZerosHead(us: seq<Unit>, lead: nat)
    requires |us| > 1 && ConformingStream(us) && us[0].long && 1 <= lead <= 2
    requires Splittable(Stream(us[1..]))
    ensures var b := Zeros(lead) + Stream(us);
            && Splittable(b) && Found(b)
            && HeadCut(b) == Cut(true, Spoiled(us[0], lead).Nal()) && b[CutAt(b)..] == Stream(us[1..])
  {
    var u, c, spoiled := us[0], Stream(us), Spoiled(us[0], lead);
    assert u in us;
    FirstUnitOf(us);
    FewZerosCut(c, lead);
    AppendAssociates(Zeros(lead - 1) + [1], u.payload, Zeros(u.trailing));
    StripPadding(spoiled.payload, u.trailing);
    HeadCutIs(Zeros(lead) + c, spoiled.payload + Zeros(u.trailing), Stream(us[1..]));
  }

  /**
   A stream whose first start code is long, or reads as long, with more zeros before it: with one or two
   the first unit comes out with the end of its start code in front, with three or more the code is
   undefined. Everything after the first unit is split as meant.
   */
  lemma LeadingZerosSplit(us: seq<Unit>, lead: nat)
    requires |us| > 1 && ConformingStream(us) && us[0].long && lead > 0
    ensures Splittable(Zeros(lead) + Stream(us)) <==> lead <= 2
    ensures lead <= 2 ==>
              Split(Zeros(lead) + Stream(us))
              == Pieces([Cut(true, Spoiled(us[0], lead).Nal())] + CompletedCuts(us[1..]), LastOctets(us))
  {
    if lead <= 2 {
      FewZerosSplit(us, lead);
    } else {
      FirstUnitOf(us);
      ManyZerosUndefined(Stream(us), lead);
    }
  }

  lemma FewZerosSplit(us: seq<Unit>, lead: nat)
    requires |us| > 1 && ConformingStream(us) && us[0].long && 1 <= lead <= 2
    ensures Splittable(Zeros(lead) + Stream(us))
    ensures Split(Zeros(lead) + Stream(us))
         == Pieces([Cut(true, Spoiled(us[0], lead).Nal())] + CompletedCuts(us[1..]), LastOctets(us))
  {
    UnrollStream(us);
    SplitStream(us[1..]);
    FewZerosHead(us, lead);
    UnrollSplit(Zeros(lead) + Stream(us), Cut(true, Spoiled(us[0], lead).Nal()), Stream(us[1..]),
                Split(Stream(us[1..])));
  }

  /** The splitter is defined on the stream with zeros in front, and cuts its first unit off as it is. */
  ghost predicate FirstAsMeant(us: seq<Unit>, lead: nat)
    requires us != []
  {
    var b := Zeros(lead) + Stream(us);
    Splittable(b) && Found(b) && HeadCut(b).nal == us[0].Nal()
  }

  lemma NoZerosAsMeant(us: seq<Unit>)
    requires |us| > 1 && ConformingStream(us)
    ensures FirstAsMeant(us, 0)
  {
    AppendNothing(Stream(us));
    UnrollStream(us);
    SplitStream(us[1..]);
    SplitHead(us);
  }

  lemma FirstUnitSpoiled(us: seq<Unit>, lead: nat)
    requires |us| > 1 && ConformingStream(us) && us[0].long && lead > 0
    ensures !FirstAsMeant(us, lead)
  {
    UnrollStream(us);
    SplitStream(us[1..]);
    if lead <= 2 {
      FewZerosHead(us, lead);
      assert |Spoiled(us[0], lead).payload| > |us[0].payload|;
    } else {
      FirstUnitOf(us);
      ManyZerosUndefined(Stream(us), lead);
    }
  }

  lemma LongStillConforming(us: seq<Unit>)
    requires us != [] && ConformingStream(us)
    ensures ConformingStream(Lengthened(us))
  {
    var vs := Lengthened(us);
    assert us[0] in us;
    forall v | v in vs ensures v.Conforming() {
      if v != vs[0] {
        assert v in us;
      }
    }
  }

  /** One of the zeros can be counted to a short start code instead. */
  lemma SameFirst(us: seq<Unit>, lead: nat)
    requires us != [] && !us[0].long && lead > 0
    ensures FirstAsMeant(us, lead) <==> FirstAsMeant(Lengthened(us), lead - 1)
  {
    ZeroBeforeShort(us, lead);
  }

  lemma OneZeroAsMeant(us: seq<Unit>)
    requires |us| > 1 && ConformingStream(us) && !us[0].long
    ensures FirstAsMeant(us, 1)
  {
    LongStillConforming(us);
    SameFirst(us, 1);
    NoZerosAsMeant(Lengthened(us));
  }

  lemma ShortUnitSpoiled(us: seq<Unit>, lead: nat)
    requires |us| > 1 && ConformingStream(us) && !us[0].long && lead > 1
    ensures !FirstAsMeant(us, lead)
  {
    LongStillConforming(us);
    SameFirst(us, lead);
    FirstUnitSpoiled(Lengthened(us), lead - 1);
  }

  /**
   The exact condition, for every conforming stream of at least two units: the first unit comes out as
   meant iff there is no zero before its start code, or one and the start code is short.
   */
  lemma SplitAsMeantIff(us: seq<Unit>, lead: nat)
    requires |us| > 1 && ConformingStream(us)
    ensures FirstAsMeant(us, lead) <==> lead == 0 || (lead == 1 && !us[0].long)
  {
    if lead == 0 {
      NoZerosAsMeant(us);
    } else if us[0].long {
      FirstUnitSpoiled(us, lead);
    } else if lead == 1 {
      OneZeroAsMeant(us);
    } else {
      ShortUnitSpoiled(us, lead);
    }
  }
}
