/**
 The RTP header layer below the packetizers. The header itself is written by libdatachannel, so a
 packet keeps only what the packetizers decide or rely on: consecutive sequence numbers, the clock
 tick in force when the header was written, the marker bit and the payload.
 */
module Rtp {
  import opened Bytes

  /** Sequence numbers are 16 bits wide (section 5.1 of RFC 3550). */
  const SEQUENCE_MODULUS: nat := 0x1_0000

  /** `tick` counts the timestamp updates before the header was written. */
  datatype Packet = Packet(seqNo: nat, tick: nat, marker: bool, payload: seq<byte>)

  /** Headers for `payloads`, numbered from `first`, which counts headers without wrapping. */
  function AddHeaders(payloads: seq<seq<byte>>, first: nat, tick: nat): (packets: seq<Packet>)
    ensures |packets| == |payloads|
    decreases |payloads|
  {
    if payloads == [] then []
    else
      [Packet(first % SEQUENCE_MODULUS, tick, false, payloads[0])]
      + AddHeaders(payloads[1..], first + 1, tick)
  }

  lemma {:induction false} HeaderAt(payloads: seq<seq<byte>>, first: nat, tick: nat, k: nat)
    requires k < |payloads|
    ensures AddHeaders(payloads, first, tick)[k]
         == Packet((first + k) % SEQUENCE_MODULUS, tick, false, payloads[k])
    decreases k
  {
    if k > 0 {
      HeaderAt(payloads[1..], first + 1, tick, k - 1);
    }
  }

  /** The state shared by all NAL units of one packetizer. */
  class RtpSession {
    /** Headers written so far, from the initial sequence number on; a header carries it modulo 2^16. */
    var sent: nat
    /** Timestamp updates so far; the clock value set by an update is an arbitrary input. */
    var tick: nat

    constructor (initial: nat)
      ensures sent == initial && tick == 0
    {
      sent, tick := initial, 0;
    }

    method Outgoing(payloads: seq<seq<byte>>) returns (packets: seq<Packet>)
      modifies this`sent
      ensures packets == AddHeaders(payloads, old(sent), tick)
      ensures sent == old(sent) + |payloads|
    {
      packets := AddHeaders(payloads, sent, tick);
      sent := sent + |payloads|;
    }

    method UpdateTimestamp()
      modifies this`tick
      ensures tick == old(tick) + 1
    {
      tick := tick + 1;
    }
  }
}
