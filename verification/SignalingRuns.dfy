/**
 Whole runs of the signaling stream: the invariants in every reachable state, the start rendezvous,
 tracks created once and in order, and the shutdown.
 */
module SignalingRuns {
  import opened Bytes
  import opened Framing
  import opened SignalingSpec
  import opened SignalingControl
  import opened SignalingQueue

  // --- Runs ---------------------------------------------------------------------------------

  /** Every event is enabled when its turn comes. */
  ghost predicate Possible(s: State, run: seq<Event>)
    decreases |run|
  {
    run != [] ==>
      && Enabled(s, run[0])
      && Possible(Step(s, run[0]), run[1..])
  }

  ghost function After(s: State, run: seq<Event>): State
    requires Possible(s, run)
    decreases |run|
  {
    if run == [] then s else After(Step(s, run[0]), run[1..])
  }

  lemma {:induction false} InvariantsHold(s: State, run: seq<Event>)
    requires Control(s) && Queue(s) && Tracks(s) && Possible(s, run)
    ensures Control(After(s, run)) && Queue(After(s, run)) && Tracks(After(s, run))
    decreases |run|
  {
    if run != [] {
      StepKeepsControl(s, run[0]);
      StepKeepsQueue(s, run[0]);
      StepKeepsTracks(s, run[0]);
      InvariantsHold(Step(s, run[0]), run[1..]);
    }
  }

  lemma StartedIsFine()
    ensures Control(STARTED) && Queue(STARTED) && Tracks(STARTED)
  {
    assert STARTED.world.sent[..0] == [];
  }

  // --- Tracks -------------------------------------------------------------------------------

  /** Unless creating tracks failed: created once, in order, and none before the connection exists. */
  ghost predicate Tracks(s: State) {
    !s.world.failed ==>
      && s.world.created + s.deferredTracks == s.world.added
      && (s.world.icePending ==> s.world.created == [])
      && (s.connected ==> s.deferredTracks == [])
  }

  /** Parts of the state that only resolving the ICE servers and creating tracks change. */
  ghost predicate SameTracks(s: State, t: State) {
    && t.world.created == s.world.created && t.deferredTracks == s.deferredTracks
    && t.world.added == s.world.added && t.world.failed == s.world.failed
    && t.world.icePending == s.world.icePending
  }

  /** The start has not moved on either; disconnecting is allowed. */
  ghost predicate Aside(s: State, t: State) {
    SameTracks(s, t) && t.accepted == s.accepted && (t.connected ==> s.connected)
  }

  lemma StopAside(s: State)
    ensures Aside(s, Stop(s))
  {
  }

  lemma CloseAside(s: State)
    ensures Aside(s, CloseStream(s))
  {
  }

  lemma ReadAside(s: State)
    ensures Aside(s, ReadObjLength(s)) && Aside(s, Cleanup(s))
  {
  }

  lemma ReadObjAside(s: State, n: nat)
    ensures Aside(s, ReadObj(s, n))
  {
  }

  lemma WriteAside(s: State)
    ensures Aside(s, TryWriteStream(s))
  {
    if s.closed {
      CloseAside(s);
    }
  }

  lemma SendAside(s: State, m: message)
    requires Sendable(m)
    ensures Aside(s, SendObject(s, m))
  {
    WriteAside(Queued(s, m));
  }

  lemma {:induction false} PerformAside(s: State, effects: seq<Effect>)
    requires forall e :: e in effects && e.Reply? ==> Sendable(e.m)
    ensures Aside(s, Perform(s, effects))
    decreases |effects|
  {
    if effects != [] {
      assert effects[0] in effects;
      match effects[0]
      case Reply(m) =>
        SendAside(s, m);
        PerformAside(SendObject(s, m), effects[1..]);
      case EndConnection =>
        CloseAside(s);
        PerformAside(CloseStream(s), effects[1..]);
    }
  }

  lemma HandleLengthAside(s: State, octets: seq<octet>)
    ensures Aside(s, HandleReadObjLen(s, octets))
  {
    ReadAside(s);
    if |octets| == 4 {
      var n := FromLe32(octets);
      var known := s.(objectLength := n);
      ReadAside(known);
      ReadObjAside(known, n);
    }
  }

  lemma EndedAside(s: State)
    ensures Aside(s, ReadEnded(s))
    ensures Aside(s, CloseStream(ReadEnded(s))) && Aside(s, Cleanup(ReadEnded(s)))
  {
    CloseAside(ReadEnded(s));
    ReadAside(ReadEnded(s));
  }

  lemma LengthAside(s: State, r: ReadResult)
    ensures Aside(s, OnLength(s, r))
  {
    EndedAside(s);
    if r.Got? {
      HandleLengthAside(ReadEnded(s), r.octets);
    }
  }

  lemma HandleObjectAside(s: State, octets: seq<octet>, effects: seq<Effect>)
    requires forall e :: e in effects && e.Reply? ==> Sendable(e.m)
    ensures Aside(s, ReadObjLength(Perform(Delivered(s, octets), effects)))
  {
    var handled := Delivered(s, octets);
    PerformAside(handled, effects);
    ReadAside(Perform(handled, effects));
  }

  lemma ObjectAside(s: State, r: ReadResult, effects: seq<Effect>)
    requires forall e :: e in effects && e.Reply? ==> Sendable(e.m)
    ensures Aside(s, OnObject(s, r, effects))
  {
    var idle := ReadEnded(s);
    EndedAside(s);
    if r.Got? {
      ReadAside(idle);
      HandleObjectAside(idle, r.octets, effects);
    }
  }

  lemma StartAside(s: State)
    ensures Aside(s, StartReading(s))
  {
    ReadAside(LoopStarted(s));
  }

  lemma AcceptAside(s: State, ok: bool)
    ensures var t := OnAccept(s, ok);
            SameTracks(s, t) && (t.connected ==> s.connected) && (t.accepted <==> s.accepted || ok)
  {
    var idle := s.(world := s.world.(future := Unused));
    if !ok {
      StopAside(idle.(self := false));
    } else if s.connected {
      StartAside(idle.(accepted := true));
    }
  }

  lemma ConnectAside(s: State, ok: bool)
    ensures var c := CreateWebrtcConnection(s, ok);
            c.accepted == s.accepted && c.world.icePending == s.world.icePending
  {
    var c := s.(connected := true);
    var t := CreateTracks(c, s.deferredTracks, ok);
    assert t.accepted == c.accepted && t.world.icePending == c.world.icePending;
  }

  lemma IceAside(s: State, ok: bool)
    ensures OnIce(s, ok).accepted == s.accepted && !OnIce(s, ok).world.icePending
  {
    var resolved := s.(world := s.world.(icePending := false));
    var c := CreateWebrtcConnection(resolved, ok);
    ConnectAside(resolved, ok);
    StartAside(c);
  }

  lemma WriteDoneAside(s: State)
    ensures Aside(s, OnWrite(s))
  {
    WriteAside(WriteEnded(s));
  }

  lemma ClosedAside(s: State)
    ensures Aside(s, OnClosed(s))
  {
    ReadAside(s.(closing := false));
  }

  lemma OtherStepsAside(s: State, e: Event)
    requires Enabled(s, e)
    requires !e.IceDone? && !e.AddTracks?
    ensures var t := Step(s, e);
            && SameTracks(s, t) && (t.connected ==> s.connected)
            && (t.accepted <==> s.accepted || e == AcceptDone(true))
  {
    match e
    case AcceptDone(ok) => AcceptAside(s, ok);
    case LengthRead(r) => LengthAside(s, r);
    case ObjectRead(r, effects) => ObjectAside(s, r, effects);
    case WriteDone => WriteDoneAside(s);
    case CloseDone => ClosedAside(s);
    case ConnectionEnded => CloseAside(s);
    case Send(m) => SendAside(s, m);
  }

  lemma StepKeepsTracks(s: State, e: Event)
    requires Control(s) && Tracks(s) && Enabled(s, e)
    ensures Tracks(Step(s, e))
  {
    if e.IceDone? {
      IceKeepsTracks(s, e.tracksOk);
    } else if e.AddTracks? {
      AppendAssociates(s.world.created, s.deferredTracks, e.tracks);
      AppendNothing(s.world.created);
      AppendNothing(s.world.created + e.tracks);
    } else {
      OtherStepsAside(s, e);
    }
  }

  lemma IceKeepsTracks(s: State, ok: bool)
    requires Control(s) && Tracks(s) && s.world.icePending
    ensures Tracks(OnIce(s, ok))
  {
    var c := CreateWebrtcConnection(s.(world := s.world.(icePending := false)), ok);
    AppendNothing(s.deferredTracks);
    AppendNothing(c.world.created);
    assert Tracks(c);
    StartAside(c);
  }

  // --- Start rendezvous ---------------------------------------------------------------------

  /** The ICE servers have been resolved in the run. */
  predicate IceDoneIn(run: seq<Event>) {
    IceDone(true) in run || IceDone(false) in run
  }

  lemma FirstOrLater(run: seq<Event>, e: Event)
    requires run != []
    ensures e in run <==> e == run[0] || e in run[1..]
  {
    assert run == [run[0]] + run[1..];
  }

  lemma {:induction false} MilestonesStay(s: State, run: seq<Event>)
    requires Possible(s, run)
    ensures var t := After(s, run);
            && (t.accepted <==> s.accepted || AcceptDone(true) in run)
            && (t.world.icePending <==> s.world.icePending && !IceDoneIn(run))
    decreases |run|
  {
    if run != [] {
      StepKeepsMilestones(s, run[0]);
      MilestonesStay(Step(s, run[0]), run[1..]);
      FirstOrLater(run, AcceptDone(true));
      FirstOrLater(run, IceDone(true));
      FirstOrLater(run, IceDone(false));
    }
  }

  lemma StepKeepsMilestones(s: State, e: Event)
    requires Enabled(s, e)
    ensures Step(s, e).accepted <==> s.accepted || e == AcceptDone(true)
    ensures Step(s, e).world.icePending <==> s.world.icePending && !e.IceDone?
  {
    if e.IceDone? {
      IceAside(s, e.tracksOk);
    } else if !e.AddTracks? {
      OtherStepsAside(s, e);
    }
  }

  /**
   In whichever order the stream is accepted and the ICE servers are resolved: unless it was closed in
   between, exactly one read loop has started, a read is outstanding on the shared future, which never
   had two users, and all tracks added so far are created once, in the order they were added.
   */
  lemma Rendezvous(run: seq<Event>)
    requires Possible(STARTED, run)
    ensures var s := After(STARTED, run);
            && s.world.loops <= 1 && !s.world.clash
            && (AcceptDone(true) in run && IceDoneIn(run) && !s.closed ==>
                  && s.world.loops == 1 && s.reading
                  && (!s.world.failed ==> s.world.created == s.world.added && s.deferredTracks == []))
  {
    StartedIsFine();
    InvariantsHold(STARTED, run);
    MilestonesStay(STARTED, run);
    AppendNothing(After(STARTED, run).world.created);
  }

  /** The write queue in every reachable state. */
  lemma QueueRefinesFifo(run: seq<Event>)
    requires Possible(STARTED, run)
    ensures var s := After(STARTED, run);
            var k := |s.world.sent| - |s.writeBuffers|;
            && 0 <= k && s.writeBuffers == s.world.sent[k..]
                    && Written(s.world.issued) == FrameAll(s.world.sent[..k])
            && s.world.writesDone <= WriteCount(s.world.issued) <= s.world.writesDone + 1
            && (!s.closed && s.writeBuffers != [] ==> WriteCount(s.world.issued) == s.world.writesDone + 1)
  {
    StartedIsFine();
    InvariantsHold(STARTED, run);
    var s := After(STARTED, run);
    var k := HandedOver(s);
    assert s.world.sent == s.world.sent[..k] + s.world.sent[k..];
  }

  // --- Shutdown -----------------------------------------------------------------------------

  /** Operations outstanding on the shared future, on the write future and for the close. */
  function Outstanding(s: State): nat {
    (if s.world.future != Unused then 1 else 0)
    + (if s.writeBuf.Some? then 1 else 0)
    + (if s.closing then 1 else 0)
  }

  predicate IsCompletion(e: Event) {
    e.AcceptDone? || e.LengthRead? || e.ObjectRead? || e.WriteDone? || e.CloseDone?
  }

  function Completions(run: seq<Event>): nat {
    if run == [] then 0 else (if IsCompletion(run[0]) then 1 else 0) + Completions(run[1..])
  }

  /** Nothing more is issued, delivered, created or stopped. */
  ghost predicate Frozen(s: State, t: State) {
    && t.world.issued == s.world.issued && t.world.stops == s.world.stops
    && t.world.inbox == s.world.inbox && t.world.created == s.world.created
  }

  /** What a handler leaves alone on a closed stream, apart from ending the operation it is called for. */
  ghost predicate Winding(s: State, t: State) {
    && t.closed && Frozen(s, t)
    && t.world.future == s.world.future && t.writeBuf == s.writeBuf && t.closing == s.closing
  }

  lemma ClosedCalls(s: State)
    requires s.closed && !s.connected
    ensures Winding(s, CloseStream(s)) && Winding(s, Cleanup(s)) && Winding(s, ReadObjLength(s))
    ensures Winding(s, TryWriteStream(s))
  {
  }

  /** A completion on a closed stream: one operation fewer outstanding, nothing else. */
  ghost predicate Ended(s: State, t: State) {
    t.closed && Frozen(s, t) && Outstanding(t) + 1 == Outstanding(s)
  }

  lemma ClosedAccept(s: State, ok: bool)
    requires Control(s) && s.closed && Enabled(s, AcceptDone(ok))
    ensures Ended(s, OnAccept(s, ok))
  {
  }

  lemma ClosedLength(s: State, r: ReadResult)
    requires Control(s) && s.closed && Enabled(s, LengthRead(r))
    ensures Ended(s, OnLength(s, r))
  {
    var idle := ReadEnded(s);
    ClosedCalls(idle);
    if r.Got? && |r.octets| == 4 {
      ClosedCalls(idle.(objectLength := FromLe32(r.octets)));
    }
  }

  lemma ClosedObject(s: State, r: ReadResult, effects: seq<Effect>)
    requires Control(s) && s.closed && Enabled(s, ObjectRead(r, effects))
    ensures Ended(s, OnObject(s, r, effects))
  {
    ClosedCalls(ReadEnded(s));
  }

  lemma ClosedWrite(s: State)
    requires Control(s) && s.closed && Enabled(s, WriteDone)
    ensures Ended(s, OnWrite(s))
  {
    ClosedCalls(WriteEnded(s));
  }

  lemma ClosedClose(s: State)
    requires Control(s) && s.closed && Enabled(s, CloseDone)
    ensures Ended(s, OnClosed(s))
  {
    ClosedCalls(s.(closing := false));
  }

  lemma ClosedCompletion(s: State, e: Event)
    requires Control(s) && s.closed && Enabled(s, e) && IsCompletion(e)
    ensures Ended(s, Step(s, e))
  {
    match e
    case AcceptDone(ok) => ClosedAccept(s, ok);
    case LengthRead(r) => ClosedLength(s, r);
    case ObjectRead(r, effects) => ClosedObject(s, r, effects);
    case WriteDone => ClosedWrite(s);
    case CloseDone => ClosedClose(s);
  }

  lemma ClosedOther(s: State, e: Event)
    requires Control(s) && s.closed && Enabled(s, e) && !IsCompletion(e)
    ensures var t := Step(s, e);
            t.closed && Frozen(s, t) && Outstanding(t) == Outstanding(s)
  {
    if e.Send? {
      ClosedCalls(Queued(s, e.m));
    } else {
      ClosedCalls(s);
    }
  }

  lemma ClosedStep(s: State, e: Event)
    requires Control(s) && s.closed && Enabled(s, e)
    ensures var t := Step(s, e);
            && t.closed && Frozen(s, t)
            && Outstanding(t) + (if IsCompletion(e) then 1 else 0) == Outstanding(s)
  {
    if IsCompletion(e) {
      ClosedCompletion(s, e);
    } else {
      ClosedOther(s, e);
    }
  }

  lemma {:induction false} ClosedRun(s: State, run: seq<Event>)
    requires Control(s) && Queue(s) && Tracks(s) && s.closed && Possible(s, run)
    ensures var t := After(s, run);
            && t.closed && Frozen(s, t)
            && Outstanding(t) + Completions(run) == Outstanding(s)
    decreases |run|
  {
    if run != [] {
      StepKeepsControl(s, run[0]);
      StepKeepsQueue(s, run[0]);
      StepKeepsTracks(s, run[0]);
      ClosedStep(s, run[0]);
      ClosedRun(Step(s, run[0]), run[1..]);
    }
  }

  /**
   Shutdown: in any run, once the stream is closed the connection has been stopped, nothing is issued,
   delivered, created or stopped any more, every completion takes one from the at most three outstanding
   operations and nothing adds to them, at most one close is ever issued, and when none is outstanding the
   object has released itself.
   */
  lemma Shutdown(before: seq<Event>, after: seq<Event>)
    requires Possible(STARTED, before) && After(STARTED, before).closed
    requires Possible(After(STARTED, before), after)
    ensures var s := After(STARTED, before);
            var t := After(s, after);
            && t.closed && Frozen(s, t) && Closes(t.world.issued) <= 1 && t.world.stops >= 1
            && Outstanding(s) <= 3 && Outstanding(t) == Outstanding(s) - Completions(after)
            && (Completions(after) == Outstanding(s) ==> !t.self)
  {
    StartedIsFine();
    InvariantsHold(STARTED, before);
    var s := After(STARTED, before);
    ClosedRun(s, after);
    InvariantsHold(s, after);
  }
}
