/**
 What the events of a run account for: every operation issued has completed or is under way, a read under
 way is the one issued last, the close is issued by exactly the events that call for it, and the logs hold
 what the events bring.
 */
module SignalingAccount {
  import opened Bytes
  import opened Framing
  import opened SignalingSpec
  import opened SignalingControl
  import opened SignalingQueue
  import opened SignalingRuns

  // --- Operations ---------------------------------------------------------------------------

  datatype Kind = Lengths | Objects | Writes | Closings

  predicate OfKind(op: Operation, kind: Kind) {
    match op
    case ReadLength => kind == Lengths
    case ReadObject(_) => kind == Objects
    case Write(_) => kind == Writes
    case Close => kind == Closings
  }

  /** The event says that an operation of this kind is over. */
  predicate Completes(e: Event, kind: Kind) {
    match kind
    case Lengths => e.LengthRead?
    case Objects => e.ObjectRead?
    case Writes => e.WriteDone?
    case Closings => e.CloseDone?
  }

  function Issued(ops: seq<Operation>, kind: Kind): nat {
    if ops == [] then 0 else Issued(ops[..|ops| - 1], kind) + if OfKind(ops[|ops| - 1], kind) then 1 else 0
  }

  function Completed(run: seq<Event>, kind: Kind): nat {
    if run == [] then 0 else (if Completes(run[0], kind) then 1 else 0) + Completed(run[1..], kind)
  }

  function UnderWay(s: State, kind: Kind): nat {
    match kind
    case Lengths => if s.world.future == ReadingLength then 1 else 0
    case Objects => if s.world.future == ReadingObject then 1 else 0
    case Writes => if s.writeBuf.Some? then 1 else 0
    case Closings => if s.closing then 1 else 0
  }

  /** The read issued last. */
  function LastRead(ops: seq<Operation>): Option<Operation> {
    if ops == [] then None
    else
      var op := ops[|ops| - 1];
      if op.ReadLength? || op.ReadObject? then Some(op) else LastRead(ops[..|ops| - 1])
  }

  /** A read under way is the one issued last, and asks for as much as the stream expects. */
  ghost predicate Asked(s: State) {
    && (s.world.future == ReadingLength ==> LastRead(s.world.issued) == Some(ReadLength) && s.objectLength == 0)
    && (s.world.future == ReadingObject ==> LastRead(s.world.issued) == Some(ReadObject(s.objectLength)))
  }

  lemma IssuedAppend(ops: seq<Operation>, op: Operation, kind: Kind)
    ensures Issued(ops + [op], kind) == Issued(ops, kind) + if OfKind(op, kind) then 1 else 0
    ensures LastRead(ops + [op]) == if op.ReadLength? || op.ReadObject? then Some(op) else LastRead(ops)
  {
    assert (ops + [op])[..|ops|] == ops;
  }

  /** The operations issued and not completed change as those under way do. */
  ghost predicate Balanced(s: State, t: State, kind: Kind) {
    && Issued(t.world.issued, kind) + UnderWay(s, kind) == Issued(s.world.issued, kind) + UnderWay(t, kind)
    && (Asked(s) ==> Asked(t))
  }

  lemma BalancedOn(s: State, t: State, u: State, kind: Kind)
    requires Balanced(s, t, kind) && Balanced(t, u, kind)
    ensures Balanced(s, u, kind)
  {
  }

  /** Nothing that the account depends on differs. */
  ghost predicate SameAccount(s: State, t: State) {
    && t.world.issued == s.world.issued && t.world.future == s.world.future
    && t.writeBuf == s.writeBuf && t.closing == s.closing
    && (t.objectLength == s.objectLength || s.world.future == Unused)
  }

  lemma SameBalanced(s: State, t: State, kind: Kind)
    requires SameAccount(s, t)
    ensures Balanced(s, t, kind)
  {
  }

  /** `op` is issued, and is under way from then on. */
  ghost predicate Issues(s: State, t: State, op: Operation) {
    && t.world.issued == s.world.issued + [op]
    && (t.closing <==> s.closing || op == Close) && (op == Close ==> !s.closing)
    && (t.writeBuf.Some? <==> s.writeBuf.Some? || op.Write?) && (op.Write? ==> s.writeBuf == None)
    && match op
       case ReadLength => s.world.future == Unused && t.world.future == ReadingLength && t.objectLength == 0
       case ReadObject(n) => s.world.future == Unused && t.world.future == ReadingObject && t.objectLength == n
       case _ => t.world.future == s.world.future && t.objectLength == s.objectLength
  }

  lemma IssueBalanced(s: State, t: State, op: Operation, kind: Kind)
    requires Issues(s, t, op)
    ensures Balanced(s, t, kind)
  {
    IssuedAppend(s.world.issued, op, kind);
  }

  lemma CloseBalanced(s: State, kind: Kind)
    requires s.closing ==> s.closed
    ensures Balanced(s, CloseStream(s), kind)
  {
    if s.closed {
      SameBalanced(s, CloseStream(s), kind);
    } else {
      IssueBalanced(s, CloseStream(s), Close, kind);
    }
  }

  lemma WriteBalanced(s: State, kind: Kind)
    requires s.closing ==> s.closed
    ensures Balanced(s, TryWriteStream(s), kind)
  {
    if s.closed {
      CloseBalanced(s, kind);
    } else if s.writeBuf.Some? || s.writeBuffers == [] {
      SameBalanced(s, s, kind);
    } else {
      IssueBalanced(s, TryWriteStream(s), Write(Frame(s.writeBuffers[0])), kind);
    }
  }

  lemma ReadBalanced(s: State, kind: Kind)
    requires s.closed || s.world.future == Unused
    ensures Balanced(s, ReadObjLength(s), kind)
  {
    if s.closed {
      SameBalanced(s, Cleanup(s), kind);
    } else {
      IssueBalanced(s, ReadObjLength(s), ReadLength, kind);
    }
  }

  lemma ReadObjBalanced(s: State, length: nat, kind: Kind)
    requires s.world.future == Unused && s.objectLength == length
    ensures Balanced(s, ReadObj(s, length), kind)
  {
    if s.closed {
      SameBalanced(s, Cleanup(s), kind);
    } else {
      IssueBalanced(s, ReadObj(s, length), ReadObject(length), kind);
    }
  }

  lemma SendBalanced(s: State, m: message, kind: Kind)
    requires (s.closing ==> s.closed) && Sendable(m)
    ensures Balanced(s, SendObject(s, m), kind)
  {
    SameBalanced(s, Queued(s, m), kind);
    WriteBalanced(Queued(s, m), kind);
    BalancedOn(s, Queued(s, m), SendObject(s, m), kind);
  }

  lemma {:induction false} PerformBalanced(s: State, effects: seq<Effect>, kind: Kind)
    requires forall e :: e in effects && e.Reply? ==> Sendable(e.m)
    requires Between(s)
    ensures Balanced(s, Perform(s, effects), kind)
    decreases |effects|
  {
    if effects != [] {
      assert effects[0] in effects;
      var next := match effects[0] case Reply(m) => SendObject(s, m) case EndConnection => CloseStream(s);
      match effects[0] {
        case Reply(m) =>
          SendBalanced(s, m, kind);
          WriteKeepsControl(Queued(s, m));
        case EndConnection =>
          CloseBalanced(s, kind);
          CloseKeepsControl(s);
      }
      PerformBalanced(next, effects[1..], kind);
      BalancedOn(s, next, Perform(s, effects), kind);
    }
  }

  /** A step: the operation that the event completes is no longer under way. */
  ghost predicate Accounted(s: State, t: State, e: Event, kind: Kind) {
    && Issued(t.world.issued, kind) + UnderWay(s, kind)
       == Issued(s.world.issued, kind) + UnderWay(t, kind) + (if Completes(e, kind) then 1 else 0)
    && (Asked(s) ==> Asked(t))
  }

  /** The operation ends, and what follows is balanced. */
  lemma EndThenBalanced(s: State, ended: State, t: State, e: Event, kind: Kind)
    requires Accounted(s, ended, e, kind) && Balanced(ended, t, kind)
    ensures Accounted(s, t, e, kind)
  {
  }

  lemma HandleLengthBalanced(s: State, octets: seq<octet>, kind: Kind)
    requires s.world.future == Unused
    ensures Balanced(s, HandleReadObjLen(s, octets), kind)
  {
    if |octets| != 4 {
      ReadBalanced(s, kind);
    } else {
      var length := FromLe32(octets);
      var known := s.(objectLength := length);
      SameBalanced(s, known, kind);
      if length < 1 {
        ReadBalanced(known, kind);
        BalancedOn(s, known, ReadObjLength(known), kind);
      } else {
        ReadObjBalanced(known, length, kind);
        BalancedOn(s, known, ReadObj(known, length), kind);
      }
    }
  }

  lemma LengthAccounted(s: State, r: ReadResult, kind: Kind)
    requires Control(s) && Enabled(s, LengthRead(r))
    ensures Accounted(s, OnLength(s, r), LengthRead(r), kind)
  {
    var idle := ReadEnded(s);
    match r {
      case Eof => CloseBalanced(idle, kind);
      case Failed => SameBalanced(idle, Cleanup(idle), kind);
      case Got(octets) => HandleLengthBalanced(idle, octets, kind);
    }
    EndThenBalanced(s, idle, OnLength(s, r), LengthRead(r), kind);
  }

  lemma HandleObjectBalanced(s: State, octets: seq<octet>, effects: seq<Effect>, kind: Kind)
    requires Between(s) && forall e :: e in effects && e.Reply? ==> Sendable(e.m)
    ensures Balanced(s, ReadObjLength(Perform(Delivered(s, octets), effects)), kind)
  {
    var handled := Delivered(s, octets);
    var done := Perform(handled, effects);
    SameBalanced(s, handled, kind);
    PerformBalanced(handled, effects, kind);
    PerformKeepsBetween(handled, effects);
    BalancedOn(s, handled, done, kind);
    ReadBalanced(done, kind);
    BalancedOn(s, done, ReadObjLength(done), kind);
  }

  lemma ObjectAccounted(s: State, r: ReadResult, effects: seq<Effect>, kind: Kind)
    requires Control(s) && Enabled(s, ObjectRead(r, effects))
    ensures Accounted(s, OnObject(s, r, effects), ObjectRead(r, effects), kind)
  {
    var idle := ReadEnded(s);
    match r {
      case Eof => CloseBalanced(idle, kind);
      case Failed => SameBalanced(idle, Cleanup(idle), kind);
      case Got(octets) =>
        if |octets| < s.objectLength || !s.connected {
          ReadBalanced(idle, kind);
        } else {
          EndedKeepsControl(s);
          HandleObjectBalanced(idle, octets, effects, kind);
        }
    }
    EndThenBalanced(s, idle, OnObject(s, r, effects), ObjectRead(r, effects), kind);
  }

  lemma StartBalanced(s: State, kind: Kind)
    requires s.closed || s.world.future == Unused
    ensures Balanced(s, StartReading(s), kind)
  {
    SameBalanced(s, LoopStarted(s), kind);
    ReadBalanced(LoopStarted(s), kind);
    BalancedOn(s, LoopStarted(s), StartReading(s), kind);
  }

  lemma AcceptAccounted(s: State, ok: bool, kind: Kind)
    requires Control(s) && Enabled(s, AcceptDone(ok))
    ensures Accounted(s, OnAccept(s, ok), AcceptDone(ok), kind)
  {
    var idle := s.(world := s.world.(future := Unused));
    if ok && s.connected {
      var ready := idle.(accepted := true);
      StartBalanced(ready, kind);
      EndThenBalanced(s, ready, StartReading(ready), AcceptDone(ok), kind);
    }
  }

  lemma ConnectAccount(s: State, ok: bool)
    ensures SameAccount(s, CreateWebrtcConnection(s, ok))
  {
    ConnectFrame(s, ok);
    ConnectControl(s, ok);
    var c := s.(connected := true);
    assert CreateTracks(c, s.deferredTracks, ok).objectLength == s.objectLength;
  }

  lemma IceAccounted(s: State, ok: bool, kind: Kind)
    requires Control(s) && Enabled(s, IceDone(ok))
    ensures Accounted(s, OnIce(s, ok), IceDone(ok), kind)
  {
    var resolved := s.(world := s.world.(icePending := false));
    var c := CreateWebrtcConnection(resolved, ok);
    ConnectAccount(resolved, ok);
    ConnectControl(resolved, ok);
    SameBalanced(s, c, kind);
    if s.accepted {
      StartBalanced(c, kind);
      BalancedOn(s, c, StartReading(c), kind);
    }
  }

  lemma WriteAccounted(s: State, kind: Kind)
    requires Control(s) && Enabled(s, WriteDone)
    ensures Accounted(s, OnWrite(s), WriteDone, kind)
  {
    WriteBalanced(WriteEnded(s), kind);
    EndThenBalanced(s, WriteEnded(s), OnWrite(s), WriteDone, kind);
  }

  lemma ClosedAccounted(s: State, kind: Kind)
    requires Enabled(s, CloseDone)
    ensures Accounted(s, OnClosed(s), CloseDone, kind)
  {
    var idle := s.(closing := false);
    SameBalanced(idle, OnClosed(s), kind);
    EndThenBalanced(s, idle, OnClosed(s), CloseDone, kind);
  }

  lemma AddTracksAccounted(s: State, tracks: seq<track>, ok: bool, kind: Kind)
    ensures Accounted(s, Step(s, AddTracks(tracks, ok)), AddTracks(tracks, ok), kind)
  {
    SameBalanced(s, Step(s, AddTracks(tracks, ok)), kind);
  }

  lemma StepAccounted(s: State, e: Event, kind: Kind)
    requires Control(s) && Enabled(s, e)
    ensures Accounted(s, Step(s, e), e, kind)
  {
    match e
    case AcceptDone(ok) => AcceptAccounted(s, ok, kind);
    case IceDone(ok) => IceAccounted(s, ok, kind);
    case LengthRead(r) => LengthAccounted(s, r, kind);
    case ObjectRead(r, effects) => ObjectAccounted(s, r, effects, kind);
    case WriteDone => WriteAccounted(s, kind);
    case CloseDone => ClosedAccounted(s, kind);
    case ConnectionEnded => CloseBalanced(s, kind);
    case Send(m) => SendBalanced(s, m, kind);
    case AddTracks(tracks, ok) => AddTracksAccounted(s, tracks, ok, kind);
  }

  lemma {:induction false} RunAccounted(s: State, run: seq<Event>, kind: Kind)
    requires Control(s) && Asked(s) && Possible(s, run)
    ensures var t := After(s, run);
            && Issued(t.world.issued, kind) + UnderWay(s, kind)
               == Issued(s.world.issued, kind) + Completed(run, kind) + UnderWay(t, kind)
            && Asked(t)
    decreases |run|
  {
    if run != [] {
      StepKeepsControl(s, run[0]);
      StepAccounted(s, run[0], kind);
      RunAccounted(Step(s, run[0]), run[1..], kind);
    }
  }

  /**
   In every run, of each kind the operations issued are those that have completed and the one under way,
   and a read under way is the one issued last: a length, or an object of the length expected.
   */
  lemma OperationsAccounted(run: seq<Event>, kind: Kind)
    requires Possible(STARTED, run)
    ensures var s := After(STARTED, run);
            && Issued(s.world.issued, kind) == Completed(run, kind) + UnderWay(s, kind)
            && (s.world.future == ReadingLength ==> LastRead(s.world.issued) == Some(ReadLength) && s.objectLength == 0)
            && (s.world.future == ReadingObject ==> LastRead(s.world.issued) == Some(ReadObject(s.objectLength)))
  {
    StartedIsFine();
    RunAccounted(STARTED, run, kind);
  }

  // --- Closing ------------------------------------------------------------------------------

  /** A whole object that is handed to the connection. */
  predicate Whole(s: State, e: Event) {
    e.ObjectRead? && e.result.Got? && |e.result.octets| >= s.objectLength && s.connected
  }

  /** The events after which the stream is to be closed. */
  predicate CallsForClose(s: State, e: Event) {
    || e == ConnectionEnded
    || (e.LengthRead? && e.result == Eof)
    || (e.ObjectRead? && e.result == Eof)
    || (Whole(s, e) && EndConnection in e.effects)
  }

  predicate ReadFails(e: Event) {
    (e.LengthRead? && e.result == Failed) || (e.ObjectRead? && e.result == Failed)
  }

  /** How a stream is closed: by issuing the close, or without. */
  ghost predicate Closing(s: State, t: State, issues: bool, quietly: bool) {
    && (t.closed <==> s.closed || issues || quietly)
    && (Closes(t.world.issued) == Closes(s.world.issued) + if !s.closed && issues then 1 else 0)
  }

  lemma CloseClosing(s: State)
    ensures Closing(s, CloseStream(s), true, false)
  {
    ClosesAppend(s.world.issued, Close);
  }

  lemma WriteClosing(s: State)
    ensures Closing(s, TryWriteStream(s), false, false)
  {
    if !s.closed && s.writeBuf == None && s.writeBuffers != [] {
      ClosesAppend(s.world.issued, Write(Frame(s.writeBuffers[0])));
    }
  }

  lemma ReadClosing(s: State, n: nat)
    ensures Closing(s, ReadObjLength(s), false, false) && Closing(s, ReadObj(s, n), false, false)
  {
    ClosesAppend(s.world.issued, ReadLength);
    ClosesAppend(s.world.issued, ReadObject(n));
  }

  lemma {:induction false} PerformClosing(s: State, effects: seq<Effect>)
    requires forall e :: e in effects && e.Reply? ==> Sendable(e.m)
    ensures Closing(s, Perform(s, effects), EndConnection in effects, false)
    decreases |effects|
  {
    if effects != [] {
      assert effects[0] in effects && effects == [effects[0]] + effects[1..];
      match effects[0]
      case Reply(m) =>
        WriteClosing(Queued(s, m));
        PerformClosing(SendObject(s, m), effects[1..]);
      case EndConnection =>
        CloseClosing(s);
        PerformClosing(CloseStream(s), effects[1..]);
    }
  }

  lemma ClosingOn(s: State, t: State, u: State, issues: bool)
    requires t.closed == s.closed && t.world.issued == s.world.issued && Closing(t, u, issues, false)
    ensures Closing(s, u, issues, false)
  {
  }

  lemma HandleLengthClosing(s: State, octets: seq<octet>)
    ensures Closing(s, HandleReadObjLen(s, octets), false, false)
  {
    if |octets| != 4 {
      ReadClosing(s, 0);
    } else {
      var length := FromLe32(octets);
      var known := s.(objectLength := length);
      ReadClosing(known, length);
      ClosingOn(s, known, HandleReadObjLen(s, octets), false);
    }
  }

  lemma LengthClosing(s: State, r: ReadResult)
    ensures Closing(s, OnLength(s, r), r == Eof, r == Failed)
  {
    CloseClosing(ReadEnded(s));
    if r.Got? {
      HandleLengthClosing(ReadEnded(s), r.octets);
    }
  }

  lemma ObjectClosing(s: State, r: ReadResult, effects: seq<Effect>)
    requires Enabled(s, ObjectRead(r, effects))
    ensures Closing(s, OnObject(s, r, effects),
                    r == Eof || (Whole(s, ObjectRead(r, effects)) && EndConnection in effects), r == Failed)
  {
    var idle := ReadEnded(s);
    CloseClosing(idle);
    if r.Got? {
      ReadClosing(idle, 0);
      var handled := Delivered(idle, r.octets);
      PerformClosing(handled, effects);
      ReadClosing(Perform(handled, effects), 0);
    }
  }

  lemma StartClosing(s: State)
    ensures Closing(s, StartReading(s), false, false)
  {
    ReadClosing(LoopStarted(s), 0);
  }

  lemma IceClosing(s: State, ok: bool)
    ensures Closing(s, OnIce(s, ok), false, false)
  {
    var resolved := s.(world := s.world.(icePending := false));
    ConnectControl(resolved, ok);
    StartClosing(CreateWebrtcConnection(resolved, ok));
  }

  lemma AcceptClosing(s: State, ok: bool)
    ensures Closing(s, OnAccept(s, ok), false, false)
  {
    StartClosing(s.(accepted := true, world := s.world.(future := Unused)));
  }

  lemma WriteDoneClosing(s: State)
    ensures Closing(s, OnWrite(s), false, false)
  {
    WriteClosing(WriteEnded(s));
  }

  lemma SendClosing(s: State, m: message)
    requires Sendable(m)
    ensures Closing(s, SendObject(s, m), false, false)
  {
    WriteClosing(Queued(s, m));
  }

  lemma ClosedClosing(s: State)
    requires s.closing ==> s.closed
    ensures s.closing ==> Closing(s, OnClosed(s), false, false)
  {
  }

  lemma AddTracksAside(s: State, tracks: seq<track>, ok: bool)
    ensures var t := Step(s, AddTracks(tracks, ok)); SameControl(s, t) && t.connected == s.connected
  {
    CreateControl(s.(world := s.world.(added := s.world.added + tracks)), tracks, ok);
  }

  lemma AddTracksClosing(s: State, tracks: seq<track>, ok: bool)
    ensures Closing(s, Step(s, AddTracks(tracks, ok)), false, false)
  {
    AddTracksAside(s, tracks, ok);
  }

  lemma StepClosing(s: State, e: Event)
    requires Control(s) && Enabled(s, e)
    ensures Closing(s, Step(s, e), CallsForClose(s, e), ReadFails(e))
  {
    match e
    case AcceptDone(ok) => AcceptClosing(s, ok);
    case IceDone(ok) => IceClosing(s, ok);
    case LengthRead(r) => LengthClosing(s, r);
    case ObjectRead(r, effects) => ObjectClosing(s, r, effects);
    case WriteDone => WriteDoneClosing(s);
    case CloseDone => ClosedClosing(s);
    case ConnectionEnded => CloseClosing(s);
    case Send(m) => SendClosing(s, m);
    case AddTracks(tracks, ok) => AddTracksClosing(s, tracks, ok);
  }

  /**
   Exactly these events close an open stream: the end of the connection, the end of the input, an object
   that ends the connection, and a failed read; all but the last issue the close, and nothing else does.
   */
  lemma StepCloses(s: State, e: Event)
    requires Control(s) && Enabled(s, e)
    ensures var t := Step(s, e);
            && (t.closed <==> s.closed || CallsForClose(s, e) || ReadFails(e))
            && Closes(t.world.issued) == Closes(s.world.issued) + if !s.closed && CallsForClose(s, e) then 1 else 0
  {
    StepClosing(s, e);
  }

  // --- Stopping the connection --------------------------------------------------------------

  /** The connection is let go of only when it is stopped. */
  ghost predicate LetsGo(s: State, t: State) {
    && (t.connected ==> s.connected)
    && t.world.stops == s.world.stops + if s.connected && !t.connected then 1 else 0
  }

  lemma ReadLetsGo(s: State, n: nat)
    ensures LetsGo(s, ReadObjLength(s)) && LetsGo(s, ReadObj(s, n)) && LetsGo(s, Cleanup(s))
  {
  }

  lemma CloseLetsGo(s: State)
    ensures LetsGo(s, CloseStream(s))
  {
  }

  lemma WriteLetsGo(s: State)
    ensures LetsGo(s, TryWriteStream(s))
  {
    if s.closed {
      CloseLetsGo(s);
    }
  }

  lemma SendLetsGo(s: State, m: message)
    requires Sendable(m)
    ensures LetsGo(s, SendObject(s, m))
  {
    WriteLetsGo(Queued(s, m));
  }

  lemma {:induction false} PerformLetsGo(s: State, effects: seq<Effect>)
    requires forall e :: e in effects && e.Reply? ==> Sendable(e.m)
    ensures LetsGo(s, Perform(s, effects))
    decreases |effects|
  {
    if effects != [] {
      assert effects[0] in effects;
      match effects[0]
      case Reply(m) =>
        SendLetsGo(s, m);
        PerformLetsGo(SendObject(s, m), effects[1..]);
      case EndConnection =>
        CloseLetsGo(s);
        PerformLetsGo(CloseStream(s), effects[1..]);
    }
  }

  lemma HandleLengthLetsGo(s: State, octets: seq<octet>)
    ensures LetsGo(s, HandleReadObjLen(s, octets))
  {
    if |octets| == 4 {
      ReadLetsGo(s.(objectLength := FromLe32(octets)), FromLe32(octets));
    } else {
      ReadLetsGo(s, 0);
    }
  }

  lemma LengthLetsGo(s: State, r: ReadResult)
    ensures LetsGo(s, OnLength(s, r))
  {
    var idle := ReadEnded(s);
    match r
    case Eof => CloseLetsGo(idle);
    case Failed => ReadLetsGo(idle, 0);
    case Got(octets) => HandleLengthLetsGo(idle, octets);
  }

  lemma ObjectLetsGo(s: State, r: ReadResult, effects: seq<Effect>)
    requires Enabled(s, ObjectRead(r, effects))
    ensures LetsGo(s, OnObject(s, r, effects))
  {
    var idle := ReadEnded(s);
    match r
    case Eof => CloseLetsGo(idle);
    case Failed => ReadLetsGo(idle, 0);
    case Got(octets) =>
      ReadLetsGo(idle, 0);
      PerformLetsGo(Delivered(idle, octets), effects);
      ReadLetsGo(Perform(Delivered(idle, octets), effects), 0);
  }

  lemma AcceptedStops(s: State, ok: bool)
    requires Control(s) && Enabled(s, AcceptDone(ok))
    ensures var t := OnAccept(s, ok);
            t.world.stops == s.world.stops + if !ok && s.connected then 1 else 0
  {
    var ready := s.(accepted := true, world := s.world.(future := Unused));
    if ok && s.connected {
      assert StartReading(ready).world.stops == ready.world.stops;
    }
  }

  lemma IceStops(s: State, ok: bool)
    requires Control(s) && Enabled(s, IceDone(ok))
    ensures OnIce(s, ok).world.stops == s.world.stops
  {
    var resolved := s.(world := s.world.(icePending := false));
    ConnectControl(resolved, ok);
    ReadLetsGo(LoopStarted(CreateWebrtcConnection(resolved, ok)), 0);
  }

  lemma ClosedLetsGo(s: State)
    ensures LetsGo(s, OnClosed(s))
  {
    ReadLetsGo(s.(closing := false), 0);
  }

  lemma OthersLetGo(s: State, e: Event)
    requires Enabled(s, e) && !e.AcceptDone? && !e.IceDone?
    ensures LetsGo(s, Step(s, e))
  {
    match e
    case LengthRead(r) => LengthLetsGo(s, r);
    case ObjectRead(r, effects) => ObjectLetsGo(s, r, effects);
    case WriteDone => WriteLetsGo(WriteEnded(s));
    case CloseDone => ClosedLetsGo(s);
    case ConnectionEnded => CloseLetsGo(s);
    case Send(m) => SendLetsGo(s, m);
    case AddTracks(tracks, ok) => AddTracksAside(s, tracks, ok);
  }

  /** The connection is stopped when the stream is closed, and when accepting fails after it was created. */
  lemma StepStops(s: State, e: Event)
    requires Control(s) && Enabled(s, e)
    ensures var t := Step(s, e);
            t.world.stops == s.world.stops + (if !s.closed && t.closed then 1 else 0)
                                           + (if e == AcceptDone(false) && s.connected then 1 else 0)
  {
    StepKeepsControl(s, e);
    match e
    case AcceptDone(ok) =>
      AcceptedStops(s, ok);
      AcceptClosing(s, ok);
    case IceDone(ok) =>
      IceStops(s, ok);
      IceClosing(s, ok);
    case _ =>
      OthersLetGo(s, e);
      StepCloses(s, e);
      StepKeepsMilestones(s, e);
  }

  // --- Releasing the object -----------------------------------------------------------------

  predicate Reads(e: Event) {
    e.LengthRead? || e.ObjectRead?
  }

  /**
   The object lets go of itself: when accepting or a read fails, when a read brings octets to a stream that
   is closed or that they close, and when on a closed stream the last operation ends.
   */
  predicate Releases(s: State, e: Event) {
    || e == AcceptDone(false)
    || ReadFails(e)
    || (Reads(e) && e.result.Got? && (s.closed || CallsForClose(s, e)))
    || (Reads(e) && e.result == Eof && s.closed && !s.closing && s.writeBuf == None)
    || (e == WriteDone && s.closed && !s.closing && !s.reading)
    || (e == CloseDone && !s.reading && s.writeBuf == None)
  }

  ghost predicate Keeps(s: State, t: State, releases: bool) {
    t.self <==> s.self && !releases
  }

  lemma ReadReleases(s: State, n: nat)
    ensures Keeps(s, ReadObjLength(s), s.closed) && Keeps(s, ReadObj(s, n), s.closed)
  {
  }

  lemma CloseReleases(s: State)
    ensures Keeps(s, CloseStream(s), s.closed && !s.closing && !s.reading && s.writeBuf == None)
    ensures !s.closed ==> CloseStream(s).closing
    ensures s.closing ==> CloseStream(s).closing || !s.closed
  {
  }

  lemma WriteReleases(s: State)
    ensures Keeps(s, TryWriteStream(s), s.closed && !s.closing && !s.reading && s.writeBuf == None)
    ensures s.closing ==> TryWriteStream(s).closing
    ensures TryWriteStream(s).closed <==> s.closed
  {
    if s.closed {
      CloseReleases(s);
    }
  }

  /** While an object is handled nothing is released: the close has not ended. */
  lemma {:induction false} PerformReleases(s: State, effects: seq<Effect>)
    requires forall e :: e in effects && e.Reply? ==> Sendable(e.m)
    requires Between(s)
    ensures Keeps(s, Perform(s, effects), false)
    decreases |effects|
  {
    if effects != [] {
      assert effects[0] in effects;
      match effects[0]
      case Reply(m) =>
        WriteReleases(Queued(s, m));
        WriteKeepsControl(Queued(s, m));
        PerformReleases(SendObject(s, m), effects[1..]);
      case EndConnection =>
        CloseReleases(s);
        CloseKeepsControl(s);
        PerformReleases(CloseStream(s), effects[1..]);
    }
  }

  lemma HandleLengthReleases(s: State, octets: seq<octet>)
    ensures Keeps(s, HandleReadObjLen(s, octets), s.closed)
  {
    if |octets| != 4 {
      ReadReleases(s, 0);
    } else {
      ReadReleases(s.(objectLength := FromLe32(octets)), FromLe32(octets));
    }
  }

  lemma LengthReleases(s: State, r: ReadResult)
    requires Control(s) && Enabled(s, LengthRead(r))
    ensures Keeps(s, OnLength(s, r), Releases(s, LengthRead(r)))
  {
    var idle := ReadEnded(s);
    match r
    case Eof => CloseReleases(idle);
    case Failed =>
    case Got(octets) => HandleLengthReleases(idle, octets);
  }

  lemma HandleObjectReleases(s: State, octets: seq<octet>, effects: seq<Effect>)
    requires Between(s) && !s.closed && forall e :: e in effects && e.Reply? ==> Sendable(e.m)
    ensures Keeps(s, ReadObjLength(Perform(Delivered(s, octets), effects)), EndConnection in effects)
  {
    var handled := Delivered(s, octets);
    PerformReleases(handled, effects);
    PerformClosing(handled, effects);
    ReadReleases(Perform(handled, effects), 0);
  }

  lemma ObjectReleases(s: State, r: ReadResult, effects: seq<Effect>)
    requires Control(s) && Enabled(s, ObjectRead(r, effects))
    ensures Keeps(s, OnObject(s, r, effects), Releases(s, ObjectRead(r, effects)))
  {
    var idle := ReadEnded(s);
    match r
    case Eof => CloseReleases(idle);
    case Failed =>
    case Got(octets) =>
      if Whole(s, ObjectRead(r, effects)) {
        EndedKeepsControl(s);
        HandleObjectReleases(idle, octets, effects);
      } else {
        ReadReleases(idle, 0);
      }
  }

  lemma AcceptReleases(s: State, ok: bool)
    requires Control(s) && Enabled(s, AcceptDone(ok))
    ensures Keeps(s, OnAccept(s, ok), !ok)
  {
    var ready := s.(accepted := true, world := s.world.(future := Unused));
    if ok && s.connected {
      ReadReleases(LoopStarted(ready), 0);
    }
  }

  lemma IceReleases(s: State, ok: bool)
    requires Control(s) && Enabled(s, IceDone(ok))
    ensures Keeps(s, OnIce(s, ok), false)
  {
    var resolved := s.(world := s.world.(icePending := false));
    ConnectControl(resolved, ok);
    ReadReleases(LoopStarted(CreateWebrtcConnection(resolved, ok)), 0);
  }

  lemma OtherReleases(s: State, e: Event)
    requires Control(s) && Enabled(s, e) && (e == ConnectionEnded || e.Send? || e.AddTracks?)
    ensures Keeps(s, Step(s, e), false)
  {
    match e
    case ConnectionEnded => CloseReleases(s);
    case Send(m) => WriteReleases(Queued(s, m));
    case AddTracks(tracks, ok) => AddTracksAside(s, tracks, ok);
  }

  /** The object lets go of itself by exactly these steps, and never takes hold of itself again. */
  lemma StepReleases(s: State, e: Event)
    requires Control(s) && Enabled(s, e)
    ensures Step(s, e).self <==> s.self && !Releases(s, e)
  {
    match e
    case AcceptDone(ok) => AcceptReleases(s, ok);
    case IceDone(ok) => IceReleases(s, ok);
    case LengthRead(r) => LengthReleases(s, r);
    case ObjectRead(r, effects) => ObjectReleases(s, r, effects);
    case WriteDone => WriteReleases(WriteEnded(s));
    case CloseDone =>
    case _ => OtherReleases(s, e);
  }

  /** In every run: an event that calls for the close of an open stream issues the one close there is. */
  lemma ClosedByOneClose(run: seq<Event>, e: Event)
    requires Possible(STARTED, run) && Enabled(After(STARTED, run), e)
    requires !After(STARTED, run).closed && CallsForClose(After(STARTED, run), e)
    ensures var s := After(STARTED, run);
            var t := Step(s, e);
            Closes(s.world.issued) == 0 && Closes(t.world.issued) == 1 && t.closed && t.closing
  {
    StartedIsFine();
    InvariantsHold(STARTED, run);
    var s := After(STARTED, run);
    StepCloses(s, e);
    StepAccounted(s, e, Closings);
    ClosesAreIssued(s.world.issued);
    ClosesAreIssued(Step(s, e).world.issued);
  }

  lemma {:induction false} ClosesAreIssued(ops: seq<Operation>)
    ensures Closes(ops) == Issued(ops, Closings)
  {
    if ops != [] {
      ClosesAreIssued(ops[..|ops| - 1]);
    }
  }
}
