/**
 The write queue of the signaling stream is one FIFO of frames: what has been handed to the stream is
 the concatenated frames of the first messages sent, and the queue holds the others.
 */
module SignalingQueue {
  import opened Bytes
  import opened Framing
  import opened SignalingSpec

  function FrameAll(ms: seq<message>): seq<octet> {
    if ms == [] then [] else Frame(ms[0]) + FrameAll(ms[1..])
  }

  /** The octets handed to the stream, in order. */
  function Written(ops: seq<Operation>): seq<octet> {
    if ops == [] then []
    else (if ops[0].Write? then ops[0].octets else []) + Written(ops[1..])
  }

  function WriteCount(ops: seq<Operation>): nat {
    if ops == [] then 0 else (if ops[0].Write? then 1 else 0) + WriteCount(ops[1..])
  }

  lemma {:induction false} WrittenAppend(ops: seq<Operation>, op: Operation)
    ensures Written(ops + [op]) == Written(ops) + if op.Write? then op.octets else []
    ensures WriteCount(ops + [op]) == WriteCount(ops) + if op.Write? then 1 else 0
  {
    if ops == [] {
      assert ops + [op] == [op];
      AppendNothing(if op.Write? then op.octets else []);
    } else {
      assert (ops + [op])[1..] == ops[1..] + [op];
      WrittenAppend(ops[1..], op);
      AppendAssociates(if ops[0].Write? then ops[0].octets else [], Written(ops[1..]),
                       if op.Write? then op.octets else []);
    }
  }

  lemma {:induction false} FrameAllAppend(ms: seq<message>, m: message)
    ensures FrameAll(ms + [m]) == FrameAll(ms) + Frame(m)
  {
    if ms == [] {
      assert ms + [m] == [m];
      AppendNothing(Frame(m));
    } else {
      assert (ms + [m])[1..] == ms[1..] + [m];
      FrameAllAppend(ms[1..], m);
      AppendAssociates(Frame(ms[0]), FrameAll(ms[1..]), Frame(m));
    }
  }

  /** How many of the messages sent have been handed to the stream. */
  function HandedOver(s: State): int {
    |s.world.sent| - |s.writeBuffers|
  }

  /**
   One FIFO of frames: the octets written are the frames of the first messages sent, the messages after
   those are the queue, and as many writes are outstanding as `writeBuf` says, at most one.
   */
  ghost predicate Fifo(s: State) {
    var k := HandedOver(s);
    && 0 <= k && s.world.sent == s.world.sent[..k] + s.writeBuffers
    && Written(s.world.issued) == FrameAll(s.world.sent[..k])
    && WriteCount(s.world.issued) == s.world.writesDone + if s.writeBuf.Some? then 1 else 0
  }

  ghost predicate Queue(s: State) {
    && Fifo(s)
    && (!s.closed && s.writeBuf == None ==> s.writeBuffers == [])
  }

  lemma CloseKeepsQueue(s: State)
    requires Fifo(s)
    ensures Queue(CloseStream(s))
  {
    WrittenAppend(s.world.issued, Close);
  }

  lemma HandOverKeepsQueue(s: State)
    requires Fifo(s) && !s.closed && s.writeBuf == None && s.writeBuffers != []
    ensures Queue(TryWriteStream(s))
  {
    var k, m := HandedOver(s), s.writeBuffers[0];
    WrittenAppend(s.world.issued, Write(Frame(m)));
    FrameAllAppend(s.world.sent[..k], m);
    assert s.world.sent[..k + 1] == s.world.sent[..k] + [m];
    var t := TryWriteStream(s);
    assert HandedOver(t) == k + 1;
    assert t.world.sent == t.world.sent[..k + 1] + t.writeBuffers;
  }

  lemma WriteKeepsQueue(s: State)
    requires Fifo(s)
    ensures Queue(TryWriteStream(s))
  {
    if s.closed {
      CloseKeepsQueue(s);
    } else if s.writeBuf == None && s.writeBuffers != [] {
      HandOverKeepsQueue(s);
    }
  }

  lemma SendKeepsQueue(s: State, m: message)
    requires Fifo(s) && Sendable(m)
    ensures Queue(SendObject(s, m))
  {
    var queued := Queued(s, m);
    assert queued.world.sent[..HandedOver(s)] == s.world.sent[..HandedOver(s)];
    WriteKeepsQueue(queued);
  }

  /** The same as far as the queue is concerned. */
  ghost predicate SameQueue(s: State, t: State) {
    && t.closed == s.closed && t.writeBuf == s.writeBuf && t.writeBuffers == s.writeBuffers
    && t.world.sent == s.world.sent && t.world.writesDone == s.world.writesDone
  }

  lemma QueueFrame(s: State, t: State)
    requires Queue(s) && SameQueue(s, t) && t.world.issued == s.world.issued
    ensures Queue(t)
  {
  }

  lemma QueueFrameRead(s: State, t: State, op: Operation)
    requires Queue(s) && SameQueue(s, t) && t.world.issued == s.world.issued + [op] && !op.Write?
    ensures Queue(t)
  {
    WrittenAppend(s.world.issued, op);
    AppendNothing(Written(s.world.issued));
  }

  lemma CleanupKeepsQueue(s: State)
    requires Queue(s)
    ensures Queue(Cleanup(s))
  {
    QueueFrame(s.(closed := true), Cleanup(s));
  }

  lemma ReadKeepsQueue(s: State)
    requires Queue(s)
    ensures Queue(ReadObjLength(s))
  {
    if s.closed {
      CleanupKeepsQueue(s);
    } else {
      QueueFrameRead(s, ReadObjLength(s), ReadLength);
    }
  }

  lemma ReadObjKeepsQueue(s: State, n: nat)
    requires Queue(s)
    ensures Queue(ReadObj(s, n))
  {
    if s.closed {
      CleanupKeepsQueue(s);
    } else {
      QueueFrameRead(s, ReadObj(s, n), ReadObject(n));
    }
  }

  lemma {:induction false} PerformKeepsQueue(s: State, effects: seq<Effect>)
    requires forall e :: e in effects && e.Reply? ==> Sendable(e.m)
    requires Queue(s)
    ensures Queue(Perform(s, effects))
    decreases |effects|
  {
    if effects != [] {
      assert effects[0] in effects;
      match effects[0]
      case Reply(m) =>
        SendKeepsQueue(s, m);
        PerformKeepsQueue(SendObject(s, m), effects[1..]);
      case EndConnection =>
        CloseKeepsQueue(s);
        PerformKeepsQueue(CloseStream(s), effects[1..]);
    }
  }

  lemma HandleLengthKeepsQueue(s: State, octets: seq<octet>)
    requires Queue(s)
    ensures Queue(HandleReadObjLen(s, octets))
  {
    if |octets| != 4 {
      ReadKeepsQueue(s);
    } else {
      var length := FromLe32(octets);
      var known := s.(objectLength := length);
      QueueFrame(s, known);
      if length < 1 {
        ReadKeepsQueue(known);
      } else {
        ReadObjKeepsQueue(known, length);
      }
    }
  }

  lemma LengthKeepsQueue(s: State, r: ReadResult)
    requires Queue(s) && Enabled(s, LengthRead(r))
    ensures Queue(OnLength(s, r))
  {
    var idle := ReadEnded(s);
    QueueFrame(s, idle);
    match r
    case Eof => CloseKeepsQueue(idle);
    case Failed => CleanupKeepsQueue(idle);
    case Got(octets) => HandleLengthKeepsQueue(idle, octets);
  }

  lemma HandleObjectKeepsQueue(s: State, octets: seq<octet>, effects: seq<Effect>)
    requires Queue(s) && forall e :: e in effects && e.Reply? ==> Sendable(e.m)
    ensures Queue(ReadObjLength(Perform(Delivered(s, octets), effects)))
  {
    var handled := Delivered(s, octets);
    QueueFrame(s, handled);
    PerformKeepsQueue(handled, effects);
    ReadKeepsQueue(Perform(handled, effects));
  }

  lemma ObjectKeepsQueue(s: State, r: ReadResult, effects: seq<Effect>)
    requires Queue(s) && Enabled(s, ObjectRead(r, effects))
    ensures Queue(OnObject(s, r, effects))
  {
    var idle := ReadEnded(s);
    QueueFrame(s, idle);
    match r
    case Eof => CloseKeepsQueue(idle);
    case Failed => CleanupKeepsQueue(idle);
    case Got(octets) =>
      ReadKeepsQueue(idle);
      HandleObjectKeepsQueue(idle, octets, effects);
  }

  lemma StartKeepsQueue(s: State)
    requires Queue(s)
    ensures Queue(StartReading(s))
  {
    QueueFrame(s, LoopStarted(s));
    ReadKeepsQueue(LoopStarted(s));
  }

  lemma CreateFrame(s: State, tracks: seq<track>, ok: bool)
    ensures SameQueue(s, CreateTracks(s, tracks, ok))
    ensures CreateTracks(s, tracks, ok).world.issued == s.world.issued
  {
  }

  lemma ConnectFrame(s: State, ok: bool)
    ensures SameQueue(s, CreateWebrtcConnection(s, ok))
    ensures CreateWebrtcConnection(s, ok).world.issued == s.world.issued
  {
    if s.deferredTracks != [] {
      CreateFrame(s.(connected := true), s.deferredTracks, ok);
    }
  }

  lemma AcceptKeepsQueue(s: State, ok: bool)
    requires Queue(s)
    ensures Queue(OnAccept(s, ok))
  {
    var idle := s.(world := s.world.(future := Unused));
    if !ok {
      QueueFrame(s, OnAccept(s, ok));
    } else {
      QueueFrame(s, idle.(accepted := true));
      if s.connected {
        StartKeepsQueue(idle.(accepted := true));
      }
    }
  }

  lemma IceKeepsQueue(s: State, ok: bool)
    requires Queue(s)
    ensures Queue(OnIce(s, ok))
  {
    var resolved := s.(world := s.world.(icePending := false));
    QueueFrame(s, resolved);
    var c := CreateWebrtcConnection(resolved, ok);
    ConnectFrame(resolved, ok);
    QueueFrame(resolved, c);
    StartKeepsQueue(c);
  }

  lemma ClosedKeepsQueue(s: State)
    requires Queue(s)
    ensures Queue(OnClosed(s))
  {
    var idle := s.(closing := false);
    QueueFrame(s, idle);
    CleanupKeepsQueue(idle);
  }

  lemma WriteDoneKeepsQueue(s: State)
    requires Queue(s) && Enabled(s, WriteDone)
    ensures Queue(OnWrite(s))
  {
    WriteKeepsQueue(WriteEnded(s));
  }

  lemma AddTracksKeepsQueue(s: State, tracks: seq<track>, ok: bool)
    requires Queue(s)
    ensures Queue(Step(s, AddTracks(tracks, ok)))
  {
    QueueFrame(s, Step(s, AddTracks(tracks, ok)));
  }

  lemma StepKeepsQueue(s: State, e: Event)
    requires Queue(s) && Enabled(s, e)
    ensures Queue(Step(s, e))
  {
    match e
    case AcceptDone(ok) => AcceptKeepsQueue(s, ok);
    case IceDone(ok) => IceKeepsQueue(s, ok);
    case LengthRead(r) => LengthKeepsQueue(s, r);
    case ObjectRead(r, effects) => ObjectKeepsQueue(s, r, effects);
    case WriteDone => WriteDoneKeepsQueue(s);
    case CloseDone => ClosedKeepsQueue(s);
    case ConnectionEnded => CloseKeepsQueue(s);
    case Send(m) => SendKeepsQueue(s, m);
    case AddTracks(tracks, ok) => AddTracksKeepsQueue(s, tracks, ok);
  }
}
