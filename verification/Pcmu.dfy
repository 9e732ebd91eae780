/** The PCMU packetizer: blocks of 1024 octets, one timestamp unit for each octet. */
module Pcmu {
  import opened Bytes

  const BLOCK: nat := 1024
  const TIMESTAMP_MODULUS: nat := 0x1_0000_0000

  const SEQUENCE_MODULUS: nat := 0x1_0000

  datatype Packet = Packet(seqNo: nat, timestamp: nat, payload: seq<octet>)

  /** `sent` counts the headers written, from the initial sequence number on, without wrapping. */
  datatype State = State(buffer: seq<octet>, timestamp: nat, sent: nat)

  datatype Output = Output(state: State, packets: seq<Packet>)

  function Drain(st: State): (r: Output)
    ensures |r.state.buffer| < BLOCK
    decreases |st.buffer|
  {
    if |st.buffer| < BLOCK then Output(st, [])
    else
      var ts := (st.timestamp + BLOCK) % TIMESTAMP_MODULUS;
      var rest := Drain(AfterBlock(st));
      Output(rest.state, [Packet(st.sent % SEQUENCE_MODULUS, ts, st.buffer[..BLOCK])] + rest.packets)
  }

  function AfterBlock(st: State): State
    requires |st.buffer| >= BLOCK
  {
    State(st.buffer[BLOCK..], (st.timestamp + BLOCK) % TIMESTAMP_MODULUS, st.sent + 1)
  }

  lemma UnrollDrain(st: State)
    requires |st.buffer| >= BLOCK
    ensures var rest, ts := Drain(AfterBlock(st)), (st.timestamp + BLOCK) % TIMESTAMP_MODULUS;
            Drain(st) == Output(rest.state, [Packet(st.sent % SEQUENCE_MODULUS, ts, st.buffer[..BLOCK])] + rest.packets)
  {
  }

  function FeedChunk(st: State, data: seq<octet>): Output {
    Drain(st.(buffer := st.buffer + data))
  }

  class PcmuPacketizer {
    var buffer: seq<octet>
    var timestamp: nat
    var sent: nat

    ghost function Value(): State
      reads this
    {
      State(buffer, timestamp, sent)
    }

    constructor (start: nat, first: nat)
      ensures Value() == State([], start, first)
    {
      buffer, timestamp, sent := [], start, first;
    }

    method Incoming(data: seq<octet>) returns (ret: seq<Packet>)
      modifies this
      ensures Output(Value(), ret) == FeedChunk(old(Value()), data)
    {
      buffer := buffer + data;
      ret := [];
      ghost var whole := Drain(Value());
      AppendNothing(whole.packets);
      while |buffer| >= BLOCK
        invariant whole == Output(Drain(Value()).state, ret + Drain(Value()).packets)
        decreases |buffer|
      {
        ghost var before := Value();
        UnrollDrain(before);
        var payload := buffer[..BLOCK];
        buffer := buffer[BLOCK..];
        timestamp := (timestamp + BLOCK) % TIMESTAMP_MODULUS;
        var packet := Packet(sent % SEQUENCE_MODULUS, timestamp, payload);
        sent := sent + 1;
        assert Value() == AfterBlock(before);
        AppendAssociates(ret, [packet], Drain(Value()).packets);
        ret := ret + [packet];
      }
      AppendNothing(ret);
    }
  }

  // --- Conservation -------------------------------------------------------------------------

  function Payloads(packets: seq<Packet>): seq<octet> {
    if packets == [] then [] else packets[0].payload + Payloads(packets[1..])
  }

  /** Draining loses nothing and cuts blocks of 1024. */
  lemma {:induction false} DrainConserves(st: State)
    ensures var r := Drain(st);
            && Payloads(r.packets) + r.state.buffer == st.buffer
            && (forall p :: p in r.packets ==> |p.payload| == BLOCK)
    decreases |st.buffer|
  {
    if |st.buffer| < BLOCK {
      AppendNothing(st.buffer);
    } else {
      var next := AfterBlock(st);
      DrainConserves(next);
      var r, rest := Drain(st), Drain(next);
      assert r.packets[1..] == rest.packets;
      AppendAssociates(st.buffer[..BLOCK], Payloads(rest.packets), rest.state.buffer);
      assert st.buffer[..BLOCK] + st.buffer[BLOCK..] == st.buffer;
    }
  }

  lemma TimestampShift(ts: nat, k: nat)
    ensures ((ts + BLOCK) % TIMESTAMP_MODULUS + BLOCK * k) % TIMESTAMP_MODULUS
         == (ts + BLOCK * (k + 1)) % TIMESTAMP_MODULUS
  {
  }

  lemma {:induction false} PacketHeader(st: State, k: nat)
    requires k < |Drain(st).packets|
    ensures Drain(st).packets[k].timestamp == (st.timestamp + BLOCK * (k + 1)) % TIMESTAMP_MODULUS
    ensures Drain(st).packets[k].seqNo == (st.sent + k) % SEQUENCE_MODULUS
    decreases k
  {
    if k > 0 {
      var next := AfterBlock(st);
      assert Drain(st).packets[k] == Drain(next).packets[k - 1];
      PacketHeader(next, k - 1);
      TimestampShift(st.timestamp, k);
    }
  }

  lemma {:induction false} DrainInTwo(st: State, more: seq<octet>)
    ensures var first := Drain(st);
            var second := FeedChunk(first.state, more);
            FeedChunk(st, more) == Output(second.state, first.packets + second.packets)
    decreases |st.buffer|
  {
    if |st.buffer| < BLOCK {
      AppendNothing(FeedChunk(st, more).packets);
    } else {
      var next := AfterBlock(st);
      assert (st.buffer + more)[..BLOCK] == st.buffer[..BLOCK];
      assert (st.buffer + more)[BLOCK..] == st.buffer[BLOCK..] + more;
      DrainInTwo(next, more);
      AppendAssociates([Drain(st).packets[0]], Drain(next).packets,
                       FeedChunk(Drain(next).state, more).packets);
    }
  }

  function FeedAll(st: State, chunks: seq<seq<octet>>): Output
    decreases |chunks|
  {
    if chunks == [] then Output(st, [])
    else
      var now := FeedChunk(st, chunks[0]);
      var later := FeedAll(now.state, chunks[1..]);
      Output(later.state, now.packets + later.packets)
  }

  lemma {:induction false} AnyChunking(st: State, chunks: seq<seq<octet>>)
    requires |st.buffer| < BLOCK
    ensures FeedAll(st, chunks) == FeedChunk(st, Flatten(chunks))
    decreases |chunks|
  {
    if chunks == [] {
      AppendNothing(st.buffer);
    } else {
      AnyChunking(FeedChunk(st, chunks[0]).state, chunks[1..]);
      AppendAssociates(st.buffer, chunks[0], Flatten(chunks[1..]));
      DrainInTwo(st.(buffer := st.buffer + chunks[0]), Flatten(chunks[1..]));
    }
  }

  ghost predicate Stamped(packets: seq<Packet>, start: nat, first: nat) {
    forall k :: 0 <= k < |packets| ==>
      && packets[k].timestamp == (start + 1024 * (k + 1)) % 0x1_0000_0000
      && packets[k].seqNo == (first + k) % 0x1_0000
  }

  lemma PacketHeaders(st: State)
    ensures Stamped(Drain(st).packets, st.timestamp, st.sent)
  {
    var packets := Drain(st).packets;
    forall k | 0 <= k < |packets|
      ensures packets[k].timestamp == (st.timestamp + BLOCK * (k + 1)) % TIMESTAMP_MODULUS
      ensures packets[k].seqNo == (st.sent + k) % SEQUENCE_MODULUS
    {
      PacketHeader(st, k);
    }
  }

  /**
   Conservation, over any sequence of calls: what was sent and what is buffered is the whole input, in
   blocks of 1024 octets with consecutive numbers and timestamps, less than a block is buffered, and none
   of it depends on the chunks.
   */
  lemma Conservation(start: nat, first: nat, chunks: seq<seq<octet>>)
    ensures var r := FeedAll(State([], start, first), chunks);
            && Payloads(r.packets) + r.state.buffer == Flatten(chunks) && |r.state.buffer| < 1024
            && (forall p :: p in r.packets ==> |p.payload| == 1024)
            && Stamped(r.packets, start, first)
            && r == FeedChunk(State([], start, first), Flatten(chunks))
  {
    var whole := State(Flatten(chunks), start, first);
    AnyChunking(State([], start, first), chunks);
    AppendNothing(Flatten(chunks));
    assert FeedAll(State([], start, first), chunks) == Drain(whole);
    DrainConserves(whole);
    PacketHeaders(whole);
  }
}
