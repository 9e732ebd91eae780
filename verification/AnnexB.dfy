/**
 Streams in the byte-stream format of Annex B of ITU-T H.264 that begin with a start code: how the
 packetizer splits them, independently of how they are chunked.
 */
module AnnexB {
  import opened Bytes
  import opened Nal
  import opened H264

  /** A NAL unit in a byte stream: its start code, its octets and the zero octets padded after it. */
  datatype Unit = Unit(long: bool, payload: seq<byte>, trailing: nat) {

    /** Section 7.4.1: no start code inside, and the last octet is not zero. */
    ghost predicate Conforming() {
      && payload != []
      && payload[|payload| - 1] != 0
      && forall q :: 0 <= q < |payload| ==> !SeparatorAt(payload, q)
    }

    function StartCode(): seq<byte> {
      if long then [0, 0, 0, 1] else [0, 0, 1]
    }

    function Octets(): seq<byte> {
      StartCode() + payload + Zeros(trailing)
    }

    function Nal(): NalUnit {
      if payload == [] then NO_UNIT else MakeNal(payload)
    }
  }

  /** Padding is followed by a long start code: a zero octet before a short one is part of a long one. */
  ghost predicate ConformingStream(us: seq<Unit>) {
    && (forall u :: u in us ==> u.Conforming())
    && forall i :: 0 <= i < |us| - 1 && us[i].trailing > 0 ==> us[i + 1].long
  }

  /** What stays in the buffer: the last unit with its start code. */
  function LastOctets(us: seq<Unit>): seq<byte> {
    if us == [] then [] else us[|us| - 1].Octets()
  }

  function Stream(us: seq<Unit>): seq<byte> {
    if us == [] then [] else us[0].Octets() + Stream(us[1..])
  }

  // --- Chunking -----------------------------------------------------------------------------

  function FeedAll(st: State, chunks: seq<seq<byte>>): (r: Output)
    requires Splittable(st.buffer + Flatten(chunks))
    decreases |chunks|
  {
    if chunks == [] then Output(st, [])
    else
      ChunkIndependence(st, chunks[0], Flatten(chunks[1..]));
      var now := FeedChunk(st, chunks[0]);
      var later := FeedAll(now.state, chunks[1..]);
      Output(later.state, now.packets + later.packets)
  }

  /** More octets do not move the first cut. */
  lemma CutStays(b: seq<byte>, more: seq<byte>)
    requires Found(b)
    ensures Found(b + more) && CutAt(b + more) == CutAt(b) && HeadLength(b + more) == HeadLength(b)
    ensures (b + more)[CutAt(b)..] == b[CutAt(b)..] + more
  {
    var p := FindSeparator(b, 4);
    FindSeparatorIsFirst(b, 4);
    FindSeparatorIsFirst(b + more, 4);
    assert SeparatorAt(b + more, p);
    assert forall q :: 4 <= q < p && SeparatorAt(b + more, q) ==> SeparatorAt(b, q);
    TailStays(b, more, CutAt(b));
  }

  lemma TailStays(b: seq<byte>, more: seq<byte>, from: nat)
    requires from <= |b|
    ensures (b + more)[from..] == b[from..] + more
  {
  }

  lemma SliceStays(b: seq<byte>, more: seq<byte>, from: nat, to: nat)
    requires from <= to <= |b|
    ensures (b + more)[from..to] == b[from..to]
  {
  }

  /** Splitting what has arrived before the rest arrives changes nothing. */
  lemma {:induction false} SplitInTwo(b: seq<byte>, more: seq<byte>)
    requires Splittable(b + more)
    ensures Splittable(b) && Splittable(Split(b).rest + more)
    ensures var second := Split(Split(b).rest + more);
            Split(b + more) == Pieces(Split(b).cuts + second.cuts, second.rest)
    decreases |b|
  {
    if Found(b) {
      CutStays(b, more);
      SliceStays(b, more, HeadLength(b), CutAt(b));
      var tail := b[CutAt(b)..];
      SplitInTwo(tail, more);
      var cut, first := HeadCut(b), Split(tail);
      var second := Split(first.rest + more);
      UnrollSplit(b, cut, tail, first);
      UnrollSplit(b + more, cut, tail + more, Split(tail + more));
      AppendAssociates([cut], first.cuts, second.cuts);
    } else {
      AppendNothing(Split(b + more).cuts);
    }
  }

  /** Chunk independence, for two chunks in any state: every split point, also inside a start code. */
  lemma ChunkIndependence(st: State, a: seq<byte>, b: seq<byte>)
    requires Splittable(st.buffer + (a + b))
    ensures Splittable(st.buffer + a) && Splittable(FeedChunk(st, a).state.buffer + b)
    ensures var first := FeedChunk(st, a);
            var second := FeedChunk(first.state, b);
            FeedChunk(st, a + b) == Output(second.state, first.packets + second.packets)
  {
    assert st.buffer + (a + b) == (st.buffer + a) + b;
    SplitInTwo(st.buffer + a, b);
    var pieces := Split(st.buffer + a);
    ReleaseAppend(st.held, pieces.cuts, Split(pieces.rest + b).cuts);
  }

  /** Chunk independence for whole runs: any chunking of the same octets. */
  lemma {:induction false} AnyChunking(st: State, chunks: seq<seq<byte>>)
    requires !Found(st.buffer)
    requires Splittable(st.buffer + Flatten(chunks))
    ensures FeedAll(st, chunks) == FeedChunk(st, Flatten(chunks))
    decreases |chunks|
  {
    if chunks == [] {
      assert st.buffer + Flatten(chunks) == st.buffer;
    } else {
      ChunkIndependence(st, chunks[0], Flatten(chunks[1..]));
      AnyChunking(FeedChunk(st, chunks[0]).state, chunks[1..]);
    }
  }

  // --- Splitting a conforming stream --------------------------------------------------------

  lemma {:induction false} StripPadding(payload: seq<byte>, trailing: nat)
    requires payload != [] && payload[|payload| - 1] != 0
    ensures HasNonZero(payload + Zeros(trailing)) && StripZeros(payload + Zeros(trailing)) == payload
    decreases trailing
  {
    var s := payload + Zeros(trailing);
    assert s[|payload| - 1] != 0;
    if trailing == 0 {
      assert s == payload;
    } else {
      assert s[..|s| - 1] == payload + Zeros(trailing - 1);
      StripPadding(payload, trailing - 1);
    }
  }

  lemma PayloadOctet(u: Unit, b: seq<byte>, k: nat)
    requires u.Octets() <= b && k < |u.payload|
    ensures b[|u.StartCode()| + k] == u.payload[k]
  {
    assert b[|u.StartCode()| + k] == u.Octets()[|u.StartCode()| + k];
  }

  /** No separator starts in the octets of a unit after its own, even if zeros follow. */
  lemma NoSeparatorInside(u: Unit, b: seq<byte>, q: nat)
    requires u.Conforming() && u.Octets() <= b
    requires 4 <= q < |u.StartCode()| + |u.payload|
    ensures !SeparatorAt(b, q)
  {
    var head, n := |u.StartCode()|, |u.payload|;
    if q + 2 < head + n {
      var k := q - head;
      PayloadOctet(u, b, k);
      PayloadOctet(u, b, k + 1);
      PayloadOctet(u, b, k + 2);
      assert !SeparatorAt(u.payload, k);
    } else {
      PayloadOctet(u, b, n - 1);
    }
  }

  /** The first separator after a whole unit is the start code of the next one. */
  lemma NextSeparator(u: Unit, next: Unit, rest: seq<byte>)
    requires u.Conforming() && (u.trailing > 0 ==> next.long)
    ensures FindSeparator(u.Octets() + (next.StartCode() + rest), 4)
         == |u.Octets()| + if next.long then 1 else 0
  {
    var b := u.Octets() + (next.StartCode() + rest);
    var tail, p := |u.StartCode()| + |u.payload|, |u.Octets()| + if next.long then 1 else 0;
    assert forall k :: tail <= k < p + 2 ==> b[k] == 0;
    assert SeparatorAt(b, p);
    forall q | 4 <= q < p ensures !SeparatorAt(b, q) {
      if q < tail {
        NoSeparatorInside(u, b, q);
      } else {
        assert b[q + 2] == 0;
      }
    }
    FindSeparatorIsFirst(b, 4);
  }

  /** A buffer that starts with a whole unit and the start code of the next is cut right between them. */
  lemma FirstCut(u: Unit, next: Unit, rest: seq<byte>)
    requires u.Conforming() && (u.trailing > 0 ==> next.long)
    ensures var b := u.Octets() + (next.StartCode() + rest);
            && Found(b) && CutAt(b) == |u.Octets()| && (IsShort(b) <==> !u.long)
            && b[HeadLength(b)..CutAt(b)] == u.payload + Zeros(u.trailing)
            && b[CutAt(b)..] == next.StartCode() + rest
  {
    NextSeparator(u, next, rest);
    var b := u.Octets() + (next.StartCode() + rest);
    var head, end := |u.StartCode()|, |u.Octets()|;
    assert b[end - 1] == 0 <==> u.trailing > 0 by {
      assert b[end - 1] == u.Octets()[end - 1];
    }
    assert next.long ==> b[end] == 0;
    assert b[2] == u.StartCode()[2];
    SliceStays(u.Octets(), next.StartCode() + rest, head, end);
    assert u.Octets()[head..end] == u.payload + Zeros(u.trailing);
  }

  lemma LoneUnit(u: Unit)
    requires u.Conforming()
    ensures !Found(u.Octets())
  {
    var b := u.Octets();
    var head := |u.StartCode()|;
    assert forall k :: head + |u.payload| <= k < |b| ==> b[k] == 0;
    forall q | 4 <= q ensures !SeparatorAt(b, q) {
      if q < head + |u.payload| {
        NoSeparatorInside(u, b, q);
      }
    }
  }

  /** The cuts for all units of a stream but the last. */
  function CompletedCuts(us: seq<Unit>): seq<Cut> {
    if |us| <= 1 then [] else [Cut(us[0].long, us[0].Nal())] + CompletedCuts(us[1..])
  }

  lemma UnrollStream(us: seq<Unit>)
    requires |us| > 1 && ConformingStream(us)
    ensures us[0].Conforming() && ConformingStream(us[1..]) && (us[0].trailing > 0 ==> us[1].long)
    ensures var rest := us[1].payload + Zeros(us[1].trailing) + Stream(us[2..]);
            Stream(us[1..]) == us[1].StartCode() + rest
  {
    assert us[0] in us;
    assert us[1..][1..] == us[2..];
  }

  lemma SplitHead(us: seq<Unit>)
    requires |us| > 1 && ConformingStream(us) && Splittable(Stream(us[1..]))
    ensures var b := Stream(us);
            && Splittable(b) && Found(b)
            && HeadCut(b) == Cut(us[0].long, us[0].Nal()) && b[CutAt(b)..] == Stream(us[1..])
  {
    UnrollStream(us);
    FirstCut(us[0], us[1], us[1].payload + Zeros(us[1].trailing) + Stream(us[2..]));
    StripPadding(us[0].payload, us[0].trailing);
    HeadCutIs(Stream(us), us[0].payload + Zeros(us[0].trailing), Stream(us[1..]));
  }

  lemma SplitOneMore(us: seq<Unit>)
    requires |us| > 1 && ConformingStream(us) && Splittable(Stream(us[1..]))
    ensures Splittable(Stream(us))
    ensures var later := Split(Stream(us[1..]));
            Split(Stream(us)) == Pieces([Cut(us[0].long, us[0].Nal())] + later.cuts, later.rest)
  {
    SplitHead(us);
    UnrollSplit(Stream(us), Cut(us[0].long, us[0].Nal()), Stream(us[1..]), Split(Stream(us[1..])));
  }

  lemma SplitLast(us: seq<Unit>)
    requires |us| == 1 && ConformingStream(us)
    ensures Splittable(Stream(us)) && Split(Stream(us)) == Pieces([], us[0].Octets())
  {
    assert us[0] in us;
    LoneUnit(us[0]);
    AppendNothing(us[0].Octets());
    assert Stream(us) == us[0].Octets();
  }

  /** A conforming stream falls apart into its units; the last one stays in the buffer. */
  lemma {:induction false} SplitStream(us: seq<Unit>)
    requires ConformingStream(us)
    ensures Splittable(Stream(us))
    ensures Split(Stream(us)) == Pieces(CompletedCuts(us), LastOctets(us))
    decreases |us|
  {
    if us == [] {
    } else if |us| == 1 {
      SplitLast(us);
    } else {
      UnrollStream(us);
      SplitStream(us[1..]);
      SplitOneMore(us);
    }
  }
}
