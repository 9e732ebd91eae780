/**
 The control invariant of the signaling stream: one read loop, one user of the shared future, at most
 one close, and a closed stream with nothing outstanding has released itself.
 */
module SignalingControl {
  import opened Bytes
  import opened Framing
  import opened SignalingSpec

  function Closes(ops: seq<Operation>): nat {
    if ops == [] then 0 else Closes(ops[..|ops| - 1]) + if ops[|ops| - 1] == Close then 1 else 0
  }

  lemma ClosesAppend(ops: seq<Operation>, op: Operation)
    ensures Closes(ops + [op]) == Closes(ops) + if op == Close then 1 else 0
  {
    assert (ops + [op])[..|ops|] == ops;
  }

  ghost predicate Flow(s: State) {
    var w := s.world;
    && !w.clash
    && (s.reading <==> w.future == ReadingLength || w.future == ReadingObject)
    && (s.accepted ==> w.future != Accepting)
    && (s.reading ==> s.accepted && !w.icePending)
    && (s.closed ==> !w.icePending)
    && (s.connected <==> !s.closed && !w.icePending)
    && (s.closing ==> s.closed)
    // one read loop
    && w.loops <= 1
    && (w.loops == 1 ==> s.accepted && !w.icePending)
    && (s.accepted && s.connected ==> w.loops == 1 && s.reading)
    // closing
    && Closes(w.issued) <= 1
    && (!s.closed ==> Closes(w.issued) == 0)
    // stopping the connection
    && (w.icePending ==> w.stops == 0)
    && (s.closed ==> 1 <= w.stops <= 2)
    && (!s.closed ==> w.stops <= if s.self then 0 else 1)
    // released while open exactly if accepting failed
    && (!s.closed ==> (!s.self <==> !s.accepted && w.future == Unused))
  }

  ghost predicate Control(s: State) {
    && Flow(s)
    && (s.closed && !s.closing && !s.reading && s.writeBuf == None ==> !s.self)
  }

  /** Inside the handling of an object: the read is over and the next one is not issued yet. */
  ghost predicate Between(s: State) {
    var w := s.world;
    && !w.clash && w.future == Unused && !s.reading
    && s.accepted && !w.icePending && w.loops == 1
    && (if s.closed then !s.connected && s.closing && Closes(w.issued) <= 1 && 1 <= w.stops <= 2
        else s.connected && !s.closing && Closes(w.issued) == 0 && s.self && w.stops == 0)
  }

  lemma CloseKeepsControl(s: State)
    ensures Flow(s) && !s.world.icePending ==> Control(CloseStream(s))
    ensures Between(s) ==> Between(CloseStream(s))
  {
    ClosesAppend(s.world.issued, Close);
  }

  lemma WriteKeepsControl(s: State)
    ensures Flow(s) ==> Control(TryWriteStream(s))
    ensures Between(s) ==> Between(TryWriteStream(s))
  {
    CloseKeepsControl(s);
    if s.writeBuffers != [] {
      ClosesAppend(s.world.issued, Write(Frame(s.writeBuffers[0])));
    }
  }

  lemma ReadKeepsControl(s: State)
    requires Between(s)
    ensures Control(ReadObjLength(s))
    ensures forall n: nat :: Control(ReadObj(s, n))
  {
    ClosesAppend(s.world.issued, ReadLength);
    forall n: nat ensures Control(ReadObj(s, n)) {
      ClosesAppend(s.world.issued, ReadObject(n));
    }
  }

  lemma {:induction false} PerformKeepsBetween(s: State, effects: seq<Effect>)
    requires forall e :: e in effects && e.Reply? ==> Sendable(e.m)
    requires Between(s)
    ensures Between(Perform(s, effects))
    decreases |effects|
  {
    if effects != [] {
      assert effects[0] in effects;
      match effects[0]
      case Reply(m) =>
        WriteKeepsControl(Queued(s, m));
        PerformKeepsBetween(SendObject(s, m), effects[1..]);
      case EndConnection =>
        CloseKeepsControl(s);
        PerformKeepsBetween(CloseStream(s), effects[1..]);
    }
  }

  lemma StartKeepsControl(s: State)
    requires s.accepted && s.connected && !s.closed && !s.closing && !s.world.icePending && s.self
    requires s.world.loops == 0 && s.world.future == Unused && !s.world.clash && !s.reading
    requires Closes(s.world.issued) == 0 && s.world.stops == 0
    ensures Control(StartReading(s))
  {
    ReadKeepsControl(LoopStarted(s));
  }

  /** A read that has ended on a closed stream, or at the end of the stream, or in an error. */
  lemma EndedKeepsControl(s: State)
    requires Control(s) && s.reading
    ensures Control(CloseStream(ReadEnded(s))) && Control(Cleanup(ReadEnded(s)))
    ensures !s.closed ==> Between(ReadEnded(s))
  {
    ClosesAppend(s.world.issued, Close);
  }

  lemma HandleLengthKeepsControl(s: State, octets: seq<octet>)
    requires Between(s) || (s.closed && Control(Cleanup(s)))
    ensures Control(HandleReadObjLen(s, octets))
  {
    var known := if |octets| == 4 then s.(objectLength := FromLe32(octets)) else s;
    if !s.closed {
      ReadKeepsControl(known);
    } else {
      assert Control(Cleanup(known));
    }
  }

  lemma LengthKeepsControl(s: State, result: ReadResult)
    requires Control(s) && Enabled(s, LengthRead(result))
    ensures Control(OnLength(s, result))
  {
    EndedKeepsControl(s);
    if result.Got? {
      HandleLengthKeepsControl(ReadEnded(s), result.octets);
    }
  }

  lemma HandleObjectKeepsControl(s: State, octets: seq<octet>, effects: seq<Effect>)
    requires Between(s) && forall e :: e in effects && e.Reply? ==> Sendable(e.m)
    ensures Control(ReadObjLength(Perform(Delivered(s, octets), effects)))
  {
    var handled := Delivered(s, octets);
    PerformKeepsBetween(handled, effects);
    ReadKeepsControl(Perform(handled, effects));
  }

  lemma ObjectKeepsControl(s: State, result: ReadResult, effects: seq<Effect>)
    requires Control(s) && Enabled(s, ObjectRead(result, effects))
    ensures Control(OnObject(s, result, effects))
  {
    EndedKeepsControl(s);
    if result.Got? {
      if !s.closed {
        ReadKeepsControl(ReadEnded(s));
        HandleObjectKeepsControl(ReadEnded(s), result.octets, effects);
      }
    }
  }

  lemma AcceptKeepsControl(s: State, ok: bool)
    requires Control(s) && Enabled(s, AcceptDone(ok))
    ensures Control(OnAccept(s, ok))
  {
    if ok && s.connected {
      StartKeepsControl(s.(accepted := true, world := s.world.(future := Unused)));
    }
  }

  /** The same as far as control is concerned, apart from the connection. */
  ghost predicate SameControl(s: State, t: State) {
    && t.accepted == s.accepted && t.closed == s.closed && t.closing == s.closing && t.reading == s.reading
    && t.writeBuf == s.writeBuf && t.self == s.self
    && t.world.future == s.world.future && t.world.icePending == s.world.icePending
    && t.world.issued == s.world.issued && t.world.loops == s.world.loops
    && t.world.clash == s.world.clash && t.world.stops == s.world.stops
  }

  lemma CreateControl(s: State, tracks: seq<track>, ok: bool)
    ensures var t := CreateTracks(s, tracks, ok);
            SameControl(s, t) && t.connected == s.connected
  {
  }

  lemma ConnectControl(s: State, ok: bool)
    ensures var t := CreateWebrtcConnection(s, ok);
            SameControl(s, t) && t.connected
  {
    if s.deferredTracks != [] {
      CreateControl(s.(connected := true), s.deferredTracks, ok);
    }
  }

  lemma IceKeepsControl(s: State, ok: bool)
    requires Control(s) && Enabled(s, IceDone(ok))
    ensures Control(OnIce(s, ok))
  {
    var resolved := s.(world := s.world.(icePending := false));
    var c := CreateWebrtcConnection(resolved, ok);
    ConnectControl(resolved, ok);
    if s.accepted {
      StartKeepsControl(c);
    } else {
      assert OnIce(s, ok) == c && Flow(c);
    }
  }

  lemma SendKeepsControl(s: State, m: message)
    requires Control(s) && Enabled(s, Send(m))
    ensures Control(SendObject(s, m))
  {
    WriteKeepsControl(Queued(s, m));
  }

  lemma WriteDoneKeepsControl(s: State)
    requires Control(s) && Enabled(s, WriteDone)
    ensures Control(OnWrite(s))
  {
    WriteKeepsControl(WriteEnded(s));
  }

  lemma ClosedKeepsControl(s: State)
    requires Control(s) && Enabled(s, CloseDone)
    ensures Control(OnClosed(s))
  {
  }

  lemma AddTracksKeepsControl(s: State, tracks: seq<track>, ok: bool)
    requires Control(s)
    ensures Control(Step(s, AddTracks(tracks, ok)))
  {
    CreateControl(s.(world := s.world.(added := s.world.added + tracks)), tracks, ok);
  }

  lemma StepKeepsControl(s: State, e: Event)
    requires Control(s) && Enabled(s, e)
    ensures Control(Step(s, e))
  {
    match e
    case AcceptDone(ok) => AcceptKeepsControl(s, ok);
    case IceDone(ok) => IceKeepsControl(s, ok);
    case LengthRead(r) => LengthKeepsControl(s, r);
    case ObjectRead(r, effects) => ObjectKeepsControl(s, r, effects);
    case WriteDone => WriteDoneKeepsControl(s);
    case CloseDone => ClosedKeepsControl(s);
    case ConnectionEnded => CloseKeepsControl(s);
    case Send(m) => SendKeepsControl(s, m);
    case AddTracks(tracks, ok) => AddTracksKeepsControl(s, tracks, ok);
  }
}
