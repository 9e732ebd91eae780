/**
 What the logs of the signaling stream hold, event by event: the messages sent, the objects delivered, the
 tracks added, whether creating tracks has failed, and how often the connection has been stopped.
 */
module SignalingLog {
  import opened Bytes
  import opened Framing
  import opened SignalingSpec
  import opened SignalingControl
  import opened SignalingQueue
  import opened SignalingRuns
  import opened SignalingAccount

  function RepliesOf(effects: seq<Effect>): seq<message> {
    if effects == [] then []
    else (if effects[0].Reply? then [effects[0].m] else []) + RepliesOf(effects[1..])
  }

  function SentBy(s: State, e: Event): seq<message> {
    if e.Send? then [e.m] else if Whole(s, e) then RepliesOf(e.effects) else []
  }

  function DeliveredBy(s: State, e: Event): seq<message> {
    if Whole(s, e) then [e.result.octets] else []
  }

  function AddedBy(e: Event): seq<track> {
    if e.AddTracks? then e.tracks else []
  }

  /** Creating tracks throws an exception. */
  predicate Fails(s: State, e: Event) {
    (e.AddTracks? && !e.ok && s.connected) || (e.IceDone? && !e.tracksOk && s.deferredTracks != [])
  }

  ghost predicate Logged(s: State, t: State, sent: seq<message>, inbox: seq<message>) {
    t.world.sent == s.world.sent + sent && t.world.inbox == s.world.inbox + inbox
  }

  /** Neither sends nor delivers; stops the connection at most when it closes the stream. */
  ghost predicate SameLog(s: State, t: State) {
    t.world.sent == s.world.sent && t.world.inbox == s.world.inbox
  }

  lemma ReadLog(s: State, n: nat)
    ensures SameLog(s, ReadObjLength(s)) && SameLog(s, ReadObj(s, n)) && SameLog(s, Cleanup(s))
  {
  }

  lemma CloseLog(s: State)
    ensures SameLog(s, CloseStream(s))
  {
  }

  lemma WriteLog(s: State)
    ensures SameLog(s, TryWriteStream(s))
  {
    if s.closed {
      CloseLog(s);
    }
  }

  lemma SendLog(s: State, m: message)
    requires Sendable(m)
    ensures Logged(s, SendObject(s, m), [m], [])
  {
    WriteLog(Queued(s, m));
    AppendNothing(s.world.inbox);
  }

  lemma {:induction false} PerformLog(s: State, effects: seq<Effect>)
    requires forall e :: e in effects && e.Reply? ==> Sendable(e.m)
    ensures Logged(s, Perform(s, effects), RepliesOf(effects), [])
    decreases |effects|
  {
    AppendNothing(s.world.inbox);
    if effects == [] {
      AppendNothing(s.world.sent);
    } else {
      assert effects[0] in effects;
      match effects[0]
      case Reply(m) =>
        SendLog(s, m);
        PerformLog(SendObject(s, m), effects[1..]);
        AppendAssociates(s.world.sent, [m], RepliesOf(effects[1..]));
      case EndConnection =>
        CloseLog(s);
        PerformLog(CloseStream(s), effects[1..]);
        AppendNothing(RepliesOf(effects[1..]));
    }
  }

  lemma LengthLog(s: State, r: ReadResult)
    ensures SameLog(s, OnLength(s, r))
  {
    var idle := ReadEnded(s);
    match r
    case Eof => CloseLog(idle);
    case Failed => ReadLog(idle, 0);
    case Got(octets) =>
      if |octets| == 4 {
        ReadLog(idle.(objectLength := FromLe32(octets)), FromLe32(octets));
      } else {
        ReadLog(idle, 0);
      }
  }

  lemma ObjectLog(s: State, r: ReadResult, effects: seq<Effect>)
    requires Enabled(s, ObjectRead(r, effects))
    ensures var e := ObjectRead(r, effects); Logged(s, OnObject(s, r, effects), SentBy(s, e), DeliveredBy(s, e))
  {
    var idle := ReadEnded(s);
    AppendNothing(s.world.inbox);
    AppendNothing(s.world.sent);
    match r
    case Eof => CloseLog(idle);
    case Failed => ReadLog(idle, 0);
    case Got(octets) =>
      ReadLog(idle, 0);
      if Whole(s, ObjectRead(r, effects)) {
        var handled := Delivered(idle, octets);
        PerformLog(handled, effects);
        AppendNothing(handled.world.inbox);
        ReadLog(Perform(handled, effects), 0);
      }
  }

  lemma StartLog(s: State)
    ensures SameLog(s, StartReading(s))
  {
    ReadLog(LoopStarted(s), 0);
  }

  lemma AcceptLog(s: State, ok: bool)
    ensures SameLog(s, OnAccept(s, ok))
  {
    if ok && s.connected {
      StartLog(s.(accepted := true, world := s.world.(future := Unused)));
    }
  }

  lemma CreateLog(s: State, tracks: seq<track>, ok: bool)
    ensures var t := CreateTracks(s, tracks, ok);
            && SameLog(s, t) && t.world.added == s.world.added
            && (t.world.failed <==> s.world.failed || (!ok && s.connected))
  {
  }

  lemma ConnectLog(s: State, ok: bool)
    ensures var t := CreateWebrtcConnection(s, ok);
            && SameLog(s, t) && t.world.added == s.world.added
            && (t.world.failed <==> s.world.failed || (!ok && s.deferredTracks != []))
  {
    if s.deferredTracks != [] {
      CreateLog(s.(connected := true), s.deferredTracks, ok);
    }
  }

  lemma IceLog(s: State, ok: bool)
    ensures var t := OnIce(s, ok);
            && SameLog(s, t) && t.world.added == s.world.added
            && (t.world.failed <==> s.world.failed || (!ok && s.deferredTracks != []))
  {
    var resolved := s.(world := s.world.(icePending := false));
    var c := CreateWebrtcConnection(resolved, ok);
    ConnectLog(resolved, ok);
    StartLog(c);
    StartAside(c);
  }

  lemma ClosedLog(s: State)
    ensures SameLog(s, OnClosed(s))
  {
    ReadLog(s.(closing := false), 0);
  }

  lemma AddTracksLog(s: State, tracks: seq<track>, ok: bool)
    ensures var t := Step(s, AddTracks(tracks, ok));
            && SameLog(s, t) && t.world.added == s.world.added + tracks
            && (t.world.failed <==> s.world.failed || (!ok && s.connected))
  {
    CreateLog(s.(world := s.world.(added := s.world.added + tracks)), tracks, ok);
  }

  lemma OtherStepsLog(s: State, e: Event)
    requires Enabled(s, e) && !e.Send? && !e.ObjectRead?
    ensures SameLog(s, Step(s, e))
  {
    match e
    case AcceptDone(ok) => AcceptLog(s, ok);
    case IceDone(ok) => IceLog(s, ok);
    case LengthRead(r) => LengthLog(s, r);
    case WriteDone => WriteLog(WriteEnded(s));
    case CloseDone => ClosedLog(s);
    case ConnectionEnded => CloseLog(s);
    case AddTracks(tracks, ok) => AddTracksLog(s, tracks, ok);
  }

  /** Every message sent and every object delivered is that of an event, and in the order of the events. */
  lemma StepLogged(s: State, e: Event)
    requires Enabled(s, e)
    ensures Logged(s, Step(s, e), SentBy(s, e), DeliveredBy(s, e))
  {
    if e.Send? {
      SendLog(s, e.m);
    } else if e.ObjectRead? {
      ObjectLog(s, e.result, e.effects);
    } else {
      OtherStepsLog(s, e);
      AppendNothing(s.world.inbox);
      AppendNothing(s.world.sent);
    }
  }

  lemma StepTracks(s: State, e: Event)
    requires Enabled(s, e)
    ensures Step(s, e).world.added == s.world.added + AddedBy(e)
    ensures Step(s, e).world.failed <==> s.world.failed || Fails(s, e)
  {
    if e.AddTracks? {
      AddTracksLog(s, e.tracks, e.ok);
    } else {
      AppendNothing(s.world.added);
      NothingAdded(s, e);
    }
  }

  lemma NothingAdded(s: State, e: Event)
    requires Enabled(s, e) && !e.AddTracks?
    ensures Step(s, e).world.added == s.world.added
    ensures Step(s, e).world.failed <==> s.world.failed || Fails(s, e)
  {
    if e.IceDone? {
      IceLog(s, e.tracksOk);
    } else {
      OtherStepsAside(s, e);
    }
  }

  // --- Runs ---------------------------------------------------------------------------------

  ghost function AllSent(s: State, run: seq<Event>): seq<message>
    requires Possible(s, run)
    decreases |run|
  {
    if run == [] then [] else SentBy(s, run[0]) + AllSent(Step(s, run[0]), run[1..])
  }

  ghost function AllDelivered(s: State, run: seq<Event>): seq<message>
    requires Possible(s, run)
    decreases |run|
  {
    if run == [] then [] else DeliveredBy(s, run[0]) + AllDelivered(Step(s, run[0]), run[1..])
  }

  function AllAdded(run: seq<Event>): seq<track> {
    if run == [] then [] else AddedBy(run[0]) + AllAdded(run[1..])
  }

  lemma LoggedOn(s: State, t: State, u: State, sent: seq<message>, inbox: seq<message>,
                 sent': seq<message>, inbox': seq<message>)
    requires Logged(s, t, sent, inbox) && Logged(t, u, sent', inbox')
    ensures Logged(s, u, sent + sent', inbox + inbox')
  {
    AppendAssociates(s.world.sent, sent, sent');
    AppendAssociates(s.world.inbox, inbox, inbox');
  }

  lemma {:induction false} RunLogged(s: State, run: seq<Event>)
    requires Possible(s, run)
    ensures Logged(s, After(s, run), AllSent(s, run), AllDelivered(s, run))
    decreases |run|
  {
    if run == [] {
      AppendNothing(s.world.sent);
      AppendNothing(s.world.inbox);
    } else {
      var e, next, rest := run[0], Step(s, run[0]), run[1..];
      StepLogged(s, e);
      RunLogged(next, rest);
      LoggedOn(s, next, After(next, rest), SentBy(s, e), DeliveredBy(s, e), AllSent(next, rest),
               AllDelivered(next, rest));
    }
  }

  /** No exception is due in the run: every creation of tracks goes well. */
  predicate AllGoWell(run: seq<Event>) {
    forall e :: e in run ==> !(e.AddTracks? && !e.ok) && !(e.IceDone? && !e.tracksOk)
  }

  lemma {:induction false} RunTracks(s: State, run: seq<Event>)
    requires Possible(s, run)
    ensures After(s, run).world.added == s.world.added + AllAdded(run)
    ensures AllGoWell(run) ==> After(s, run).world.failed == s.world.failed
    decreases |run|
  {
    if run == [] {
      AppendNothing(s.world.added);
    } else {
      assert run[0] in run;
      StepTracks(s, run[0]);
      RunTracks(Step(s, run[0]), run[1..]);
      AppendAssociates(s.world.added, AddedBy(run[0]), AllAdded(run[1..]));
    }
  }

  /**
   In every run: the octets written are the frames of the first messages that the events of the run have
   sent, replies included, and the queue holds the others; the objects delivered are those read whole; and
   if creating tracks goes well, the tracks created and deferred are those added, in order.
   */
  lemma RunDecides(run: seq<Event>)
    requires Possible(STARTED, run)
    ensures var s, sent := After(STARTED, run), AllSent(STARTED, run);
            var k := |sent| - |s.writeBuffers|;
            && 0 <= k && s.writeBuffers == sent[k..] && Written(s.world.issued) == FrameAll(sent[..k])
            && s.world.inbox == AllDelivered(STARTED, run)
            && (AllGoWell(run) ==> s.world.created + s.deferredTracks == AllAdded(run))
  {
    StartedIsFine();
    QueueRefinesFifo(run);
    RunLogged(STARTED, run);
    RunTracks(STARTED, run);
    InvariantsHold(STARTED, run);
    AppendNothing(AllSent(STARTED, run));
    AppendNothing(AllDelivered(STARTED, run));
    AppendNothing(AllAdded(run));
  }
}
