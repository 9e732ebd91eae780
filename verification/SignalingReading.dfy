/**
 The framing round trip over the actual read loop: a listening stream that is served the octets of any
 list of frames hands exactly the nonempty objects to the connection, in order, and listens again.
 */
module SignalingReading {
  import opened Bytes
  import opened Framing
  import opened SignalingSpec
  import opened SignalingControl
  import opened SignalingQueue
  import opened SignalingRuns
  import opened SignalingAccount

  /** What handling an object sends back at once, as for a TURN request. */
  type replier = message -> seq<message>

  ghost predicate Proper(reply: replier) {
    forall m :: AllSendable(reply(m))
  }

  function Replies(rs: seq<message>): seq<Effect> {
    seq(|rs|, k requires 0 <= k < |rs| => Reply(rs[k]))
  }

  /** What every reachable state keeps. */
  ghost predicate Sound(s: State) {
    Control(s) && Queue(s) && Asked(s)
  }

  lemma StepKeepsSound(s: State, e: Event)
    requires Sound(s) && Enabled(s, e)
    ensures Sound(Step(s, e))
  {
    StepKeepsControl(s, e);
    StepKeepsQueue(s, e);
    StepAccounted(s, e, Lengths);
  }

  /** The octets that the read issued last asks for. */
  function Wanted(ops: seq<Operation>): nat {
    match LastRead(ops)
    case Some(ReadLength) => 4
    case Some(ReadObject(n)) => n
    case _ => 0
  }

  /** The next read of a stream that has input: as much as it asks for, less only at the end of it. */
  ghost function NextRead(s: State, input: seq<octet>, reply: replier): (e: Event)
    requires Proper(reply) && input != [] && Asked(s)
    requires s.world.future == ReadingLength || s.world.future == ReadingObject
    ensures Enabled(s, e) && (e.LengthRead? || e.ObjectRead?) && e.result.Got?
    ensures e.result.octets <= input
  {
    var wanted := Wanted(s.world.issued);
    var octets := input[..if wanted <= |input| then wanted else |input|];
    if s.world.future == ReadingLength then LengthRead(Got(octets))
    else
      assert AllSendable(reply(octets));
      ObjectRead(Got(octets), Replies(reply(octets)))
  }

  /** The stream served with `input`, until it is used up or no longer asked for. */
  ghost function Serve(s: State, input: seq<octet>, reply: replier): State
    requires Proper(reply) && Sound(s)
    decreases |input|
  {
    if input == [] || (s.world.future != ReadingLength && s.world.future != ReadingObject) then s
    else
      var e := NextRead(s, input, reply);
      StepKeepsSound(s, e);
      if e.result.octets == [] then s else Serve(Step(s, e), input[|e.result.octets|..], reply)
  }

  // --- One frame ----------------------------------------------------------------------------

  ghost predicate Listening(s: State) {
    Sound(s) && s.connected && s.world.future == ReadingLength
  }

  /** Only these parts differ: objects delivered and messages sent since. */
  ghost predicate Progress(s: State, t: State, inbox: seq<message>, sent: seq<message>) {
    t.world.inbox == s.world.inbox + inbox && t.world.sent == s.world.sent + sent
  }

  lemma SendWhileOpen(s: State, m: message)
    requires Between(s) && !s.closed && Queue(s) && Sendable(m)
    ensures var t := SendObject(s, m);
            Between(t) && !t.closed && Queue(t) && Progress(s, t, [], [m])
  {
    WriteKeepsControl(Queued(s, m));
    SendKeepsQueue(s, m);
    AppendNothing(s.world.inbox);
  }

  lemma PerformReplies(s: State, rs: seq<message>)
    requires rs != [] && AllSendable(rs)
    ensures AllSendable(rs[1..])
    ensures Perform(s, Replies(rs)) == Perform(SendObject(s, rs[0]), Replies(rs[1..]))
  {
    var effects := Replies(rs);
    assert rs[0] in rs && effects[0] == Reply(rs[0]);
    assert effects[1..] == Replies(rs[1..]);
  }

  lemma SentOn(s: State, t: State, u: State, m: message, rest: seq<message>)
    requires Progress(s, t, [], [m]) && Progress(t, u, [], rest)
    ensures Progress(s, u, [], [m] + rest)
  {
    AppendNothing(s.world.inbox);
    AppendAssociates(s.world.sent, [m], rest);
  }

  lemma {:induction false} SendAllWhileOpen(s: State, rs: seq<message>)
    requires Between(s) && !s.closed && Queue(s) && AllSendable(rs)
    ensures var t := Perform(s, Replies(rs));
            Between(t) && !t.closed && Queue(t) && Progress(s, t, [], rs)
    decreases |rs|
  {
    if rs == [] {
      AppendNothing(s.world.inbox);
      AppendNothing(s.world.sent);
    } else {
      var m, rest := rs[0], rs[1..];
      assert m in rs && rs == [m] + rest;
      var next := SendObject(s, m);
      SendWhileOpen(s, m);
      PerformReplies(s, rs);
      SendAllWhileOpen(next, rest);
      SentOn(s, next, Perform(next, Replies(rest)), m, rest);
    }
  }

  /** Reading a length that is followed by an object. */
  lemma LengthServed(s: State, n: nat)
    requires Listening(s) && n < UINT32_MODULUS
    ensures var t := OnLength(s, Got(Le32(n)));
            && Sound(t) && t.connected && Progress(s, t, [], [])
            && (if n == 0 then t.world.future == ReadingLength
                else t.world.future == ReadingObject && t.objectLength == n)
  {
    StepKeepsSound(s, LengthRead(Got(Le32(n))));
    LengthReadBack(s, n);
    AppendNothing(s.world.inbox);
    AppendNothing(s.world.sent);
  }

  lemma LengthReadBack(s: State, n: nat)
    requires !s.closed && n < UINT32_MODULUS
    ensures OnLength(s, Got(Le32(n)))
         == var known := ReadEnded(s).(objectLength := n);
            if n == 0 then ReadObjLength(known) else ReadObj(known, n)
  {
    Le32RoundTrip(n);
  }

  lemma ObjectServed(s: State, m: message, rs: seq<message>)
    requires Sound(s) && s.connected && s.world.future == ReadingObject
    requires s.objectLength == |m| && AllSendable(rs)
    ensures Listening(OnObject(s, Got(m), Replies(rs)))
    ensures Progress(s, OnObject(s, Got(m), Replies(rs)), [m], rs)
  {
    StepKeepsSound(s, ObjectRead(Got(m), Replies(rs)));
    EndedKeepsControl(s);
    var idle := ReadEnded(s);
    var handled := Delivered(idle, m);
    QueueFrame(s, handled);
    SendAllWhileOpen(handled, rs);
    var done := Perform(handled, Replies(rs));
    AppendNothing(handled.world.inbox);
    assert OnObject(s, Got(m), Replies(rs)) == ReadObjLength(done);
  }

  /** What a frame delivers: the object, unless it is empty. */
  function FrameObject(c: message): seq<message> {
    if c == [] then [] else [c]
  }

  function FrameReplies(c: message, reply: replier): seq<message> {
    if c == [] then [] else reply(c)
  }

  /** As much of a message as its size in 32 bits says. */
  function Framed(m: message): message {
    m[..|m| % 0x1_0000_0000]
  }

  function NonEmpty(ms: seq<message>): seq<message> {
    if ms == [] then [] else FrameObject(Framed(ms[0])) + NonEmpty(ms[1..])
  }

  function AllReplies(ms: seq<message>, reply: replier): seq<message> {
    if ms == [] then [] else FrameReplies(Framed(ms[0]), reply) + AllReplies(ms[1..], reply)
  }

  /** The state after one whole frame. */
  ghost function AfterFrame(s: State, m: message, reply: replier): State
    requires Listening(s) && |m| < UINT32_MODULUS && Proper(reply)
  {
    var t := OnLength(s, Got(Le32(|m|)));
    LengthServed(s, |m|);
    if m == [] then t else OnObject(t, Got(m), Replies(reply(m)))
  }

  lemma FrameProgress(s: State, m: message, reply: replier)
    requires Listening(s) && |m| < UINT32_MODULUS && Proper(reply)
    ensures Listening(AfterFrame(s, m, reply))
    ensures Progress(s, AfterFrame(s, m, reply), FrameObject(m), FrameReplies(m, reply))
  {
    var t := OnLength(s, Got(Le32(|m|)));
    LengthServed(s, |m|);
    if m != [] {
      assert AllSendable(reply(m));
      ObjectServed(t, m, reply(m));
      AppendNothing(s.world.inbox);
      AppendNothing(s.world.sent);
    }
  }

  lemma ServeLength(s: State, n: nat, rest: seq<octet>, reply: replier)
    requires Listening(s) && Proper(reply) && n < UINT32_MODULUS
    ensures Sound(OnLength(s, Got(Le32(n))))
    ensures Serve(s, Le32(n) + rest, reply) == Serve(OnLength(s, Got(Le32(n))), rest, reply)
  {
    LengthServed(s, n);
    var input := Le32(n) + rest;
    assert input[..4] == Le32(n) && input[4..] == rest;
  }

  lemma ServeObject(s: State, m: message, rest: seq<octet>, reply: replier)
    requires Sound(s) && s.world.future == ReadingObject && Proper(reply)
    requires m != [] && s.objectLength == |m|
    ensures AllSendable(reply(m))
    ensures Sound(OnObject(s, Got(m), Replies(reply(m))))
    ensures Serve(s, m + rest, reply) == Serve(OnObject(s, Got(m), Replies(reply(m))), rest, reply)
  {
    var input := m + rest;
    assert input[..|m|] == m && input[|m|..] == rest;
    StepKeepsSound(s, ObjectRead(Got(m), Replies(reply(m))));
  }

  lemma FrameServed(s: State, m: message, rest: seq<octet>, reply: replier)
    requires Listening(s) && |m| < UINT32_MODULUS && Proper(reply)
    ensures Listening(AfterFrame(s, m, reply))
    ensures Serve(s, RawFrame(m) + rest, reply) == Serve(AfterFrame(s, m, reply), rest, reply)
  {
    FrameProgress(s, m, reply);
    LengthServed(s, |m|);
    AppendAssociates(Le32(|m|), m, rest);
    ServeLength(s, |m|, m + rest, reply);
    if m == [] {
      AppendNothing(rest);
    } else {
      ServeObject(OnLength(s, Got(Le32(|m|))), m, rest, reply);
    }
  }

  /**
   Framing round trip, for any list of messages that can be framed: what was framed of each, the whole of
   it below 2^32 octets, is delivered, in order, zero-length frames are skipped, the replies are sent in
   order, and the stream listens again.
   */
  lemma {:induction false} FramesDelivered(s: State, ms: seq<message>, reply: replier)
    requires Listening(s) && Proper(reply)
    ensures var t := Serve(s, FrameAll(ms), reply);
            Listening(t) && Progress(s, t, NonEmpty(ms), AllReplies(ms, reply))
    decreases |ms|
  {
    AppendNothing(s.world.inbox);
    AppendNothing(s.world.sent);
    if ms != [] {
      var c, rest := Clip(ms[0]), ms[1..];
      FrameServed(s, c, FrameAll(rest), reply);
      FrameProgress(s, c, reply);
      FramesDelivered(AfterFrame(s, c, reply), rest, reply);
      AppendAssociates(s.world.inbox, FrameObject(c), NonEmpty(rest));
      AppendAssociates(s.world.sent, FrameReplies(c, reply), AllReplies(rest, reply));
    }
  }

  lemma {:induction false} FrameAllPlus(ms: seq<message>, rest: seq<octet>, s: State, reply: replier)
    requires Listening(s) && Proper(reply)
    ensures var t := Serve(s, FrameAll(ms), reply);
            Listening(t) && Serve(s, FrameAll(ms) + rest, reply) == Serve(t, rest, reply)
    decreases |ms|
  {
    if ms == [] {
      AppendNothing(rest);
    } else {
      var c, others := Clip(ms[0]), ms[1..];
      FrameServed(s, c, FrameAll(others) + rest, reply);
      FrameServed(s, c, FrameAll(others), reply);
      AppendAssociates(RawFrame(c), FrameAll(others), rest);
      FrameAllPlus(others, rest, AfterFrame(s, c, reply), reply);
    }
  }

  lemma CutLengthServed(s: State, part: seq<octet>, reply: replier)
    requires Listening(s) && Proper(reply) && 0 < |part| < 4
    ensures var t := Serve(s, part, reply);
            Control(t) && t.connected && Progress(s, t, [], [])
  {
    LengthKeepsControl(s, Got(part));
    assert part[..|part|] == part && part[|part|..] == [];
    assert NextRead(s, part, reply) == LengthRead(Got(part));
    AppendNothing(s.world.inbox);
    AppendNothing(s.world.sent);
  }

  lemma CutObjectServed(s: State, part: seq<octet>, reply: replier)
    requires Sound(s) && s.connected && s.world.future == ReadingObject
    requires Proper(reply) && 0 < |part| < s.objectLength
    ensures var t := Serve(s, part, reply);
            Control(t) && t.connected && Progress(s, t, [], [])
  {
    assert AllSendable(reply(part));
    var e := ObjectRead(Got(part), Replies(reply(part)));
    assert part[..|part|] == part && part[|part|..] == [];
    assert NextRead(s, part, reply) == e;
    ObjectKeepsControl(s, Got(part), Replies(reply(part)));
    assert Step(s, e) == ReadObjLength(ReadEnded(s));
    AppendNothing(s.world.inbox);
    AppendNothing(s.world.sent);
  }

  /** A frame cut off before its end, served to a listening stream, delivers nothing. */
  lemma CutFrameServed(s: State, m: message, cut: nat, reply: replier)
    requires Listening(s) && |m| < UINT32_MODULUS && Proper(reply) && cut < |RawFrame(m)|
    ensures var t := Serve(s, RawFrame(m)[..cut], reply);
            Control(t) && t.connected && Progress(s, t, [], [])
  {
    AppendNothing(s.world.inbox);
    AppendNothing(s.world.sent);
    if 0 < cut < 4 {
      CutLengthServed(s, RawFrame(m)[..cut], reply);
    } else if cut >= 4 {
      var t, part := OnLength(s, Got(Le32(|m|))), m[..cut - 4];
      assert RawFrame(m)[..cut] == Le32(|m|) + part;
      LengthServed(s, |m|);
      ServeLength(s, |m|, part, reply);
      if part != [] {
        CutObjectServed(t, part, reply);
      }
    }
  }

  /**
   A stream that ends inside a frame: the whole frames before are delivered, the part of the last one
   is not, and the stream stays open to read the end.
   */
  lemma TruncatedDelivered(s: State, ms: seq<message>, m: message, cut: nat, reply: replier)
    requires Listening(s) && Proper(reply) && |m| < UINT32_MODULUS && cut < |RawFrame(m)|
    ensures var t := Serve(s, FrameAll(ms) + RawFrame(m)[..cut], reply);
            Control(t) && t.connected && Progress(s, t, NonEmpty(ms), AllReplies(ms, reply))
  {
    var rest := RawFrame(m)[..cut];
    FramesDelivered(s, ms, reply);
    FrameAllPlus(ms, rest, s, reply);
    CutFrameServed(Serve(s, FrameAll(ms), reply), m, cut, reply);
    AppendNothing(s.world.inbox + NonEmpty(ms));
    AppendNothing(s.world.sent + AllReplies(ms, reply));
  }

  /**
   One stream writing to another: whatever a reachable stream has written, a listening one that is
   served it delivers the nonempty messages handed over so far, in the order they were sent.
   */
  lemma WriterToReader(run: seq<Event>, reader: State, reply: replier)
    requires Possible(STARTED, run) && Listening(reader) && Proper(reply)
    ensures var w := After(STARTED, run);
            var t := Serve(reader, Written(w.world.issued), reply);
            && |w.writeBuffers| <= |w.world.sent|
            && t.world.inbox == reader.world.inbox + NonEmpty(w.world.sent[..|w.world.sent| - |w.writeBuffers|])
  {
    QueueRefinesFifo(run);
    var w := After(STARTED, run);
    var ms := w.world.sent[..|w.world.sent| - |w.writeBuffers|];
    assert Written(w.world.issued) == FrameAll(ms);
    FramesDelivered(reader, ms, reply);
  }
}
