/**
 Specification of the signaling stream of one client: an object driven by completions of asynchronous
 operations, each posted to the event queue and handled to the end before the next one. The functions
 say what each member function and each handler does to the state.
 */
module SignalingSpec {
  import opened Bytes
  import opened Framing

  /** A media track, known by its identifier. */
  type track = nat

  /** What the future shared by accepting and reading is in use for. */
  datatype FutureUse = Unused | Accepting | ReadingLength | ReadingObject

  /** An operation handed to the device library after the accept. */
  datatype Operation = ReadLength | ReadObject(length: nat) | Write(octets: seq<octet>) | Close

  /**
   The surroundings of the object: what the device library and the event queue owe it, and what has
   passed between them. `loops` counts the starts of the read loop, `clash` says that the shared future
   was handed out while in use, `failed` that creating tracks threw an exception; `stops` counts the calls
   that stop the connection.
   */
  datatype World = World(
    future: FutureUse,
    icePending: bool,
    issued: seq<Operation>,
    writesDone: nat,
    loops: nat,
    clash: bool,
    sent: seq<message>,
    inbox: seq<message>,
    added: seq<track>,
    created: seq<track>,
    failed: bool,
    stops: nat)

  datatype State = State(
    accepted: bool,
    closed: bool,
    closing: bool,
    reading: bool,
    writeBuf: Option<seq<octet>>,
    writeBuffers: seq<message>,
    objectLength: nat,
    connected: bool,
    self: bool,
    deferredTracks: seq<track>,
    world: World)

  /** After `start`: the ICE servers are requested and the stream is being accepted. */
  const STARTED: State :=
    State(false, false, false, false, None, [], 0, false, true, [],
          World(Accepting, true, [], 0, 0, false, [], [], [], [], false, 0))

  predicate AllSendable(ms: seq<message>) {
    forall m :: m in ms ==> Sendable(m)
  }

  // --- What each member function does -------------------------------------------------------

  function Issue(s: State, op: Operation): State {
    s.(world := s.world.(issued := s.world.issued + [op]))
  }

  function IssueRead(s: State, op: Operation, use: FutureUse): State {
    s.(world := s.world.(issued := s.world.issued + [op], future := use,
                         clash := s.world.clash || s.world.future != Unused))
  }

  /** Stops the connection if there is one, without letting go of it. */
  function Stop(s: State): State {
    if s.connected then s.(world := s.world.(stops := s.world.stops + 1)) else s
  }

  function Cleanup(s: State): State {
    Stop(s).(closed := true, connected := false, self := false)
  }

  function ReadObjLength(s: State): State {
    if s.closed then Cleanup(s)
    else IssueRead(s.(reading := true, objectLength := 0), ReadLength, ReadingLength)
  }

  function ReadObj(s: State, length: nat): State {
    if s.closed then Cleanup(s)
    else IssueRead(s.(reading := true), ReadObject(length), ReadingObject)
  }

  function CloseStream(s: State): State {
    if s.closed then
      if !s.closing && !s.reading && s.writeBuf == None then Cleanup(s) else s
    else Issue(Stop(s).(closed := true, closing := true, connected := false), Close)
  }

  function TryWriteStream(s: State): State {
    if s.closed then CloseStream(s)
    else if s.writeBuf.Some? || s.writeBuffers == [] then s
    else
      var frame := Frame(s.writeBuffers[0]);
      Issue(s.(writeBuffers := s.writeBuffers[1..], writeBuf := Some(frame)), Write(frame))
  }

  function Queued(s: State, m: message): State {
    s.(writeBuffers := s.writeBuffers + [m], world := s.world.(sent := s.world.sent + [m]))
  }

  function SendObject(s: State, m: message): State
    requires Sendable(m)
  {
    TryWriteStream(Queued(s, m))
  }

  /** `ok` is false if the connection throws an exception. */
  function CreateTracks(s: State, tracks: seq<track>, ok: bool): State {
    if !s.connected then s.(deferredTracks := s.deferredTracks + tracks)
    else if ok then s.(world := s.world.(created := s.world.created + tracks))
    else s.(world := s.world.(failed := true))
  }

  function CreateWebrtcConnection(s: State, ok: bool): State {
    var c := s.(connected := true);
    if s.deferredTracks == [] then c
    else CreateTracks(c, s.deferredTracks, ok).(deferredTracks := [])
  }

  /** The read loop starts when both the stream is accepted and the connection exists. */
  function StartReading(s: State): State {
    ReadObjLength(LoopStarted(s))
  }

  function LoopStarted(s: State): State {
    s.(world := s.world.(loops := s.world.loops + 1))
  }

  // --- The handlers -------------------------------------------------------------------------

  /** How a read ends; `Got` carries the octets read, fewer than asked for at the end of the stream. */
  datatype ReadResult = Eof | Failed | Got(octets: seq<octet>)

  /** What handling a signaling object may do to the stream before the next read. */
  datatype Effect = Reply(m: message) | EndConnection

  datatype Event =
    | AcceptDone(ok: bool)
    | IceDone(tracksOk: bool)
    | LengthRead(result: ReadResult)
    | ObjectRead(result: ReadResult, effects: seq<Effect>)
    | WriteDone
    | CloseDone
    | ConnectionEnded
    | Send(m: message)
    | AddTracks(tracks: seq<track>, ok: bool)

  function OnAccept(s: State, ok: bool): State {
    var idle := s.(world := s.world.(future := Unused));
    if !ok then Stop(idle.(self := false))
    else if s.connected then StartReading(idle.(accepted := true))
    else idle.(accepted := true)
  }

  function OnIce(s: State, tracksOk: bool): State {
    var c := CreateWebrtcConnection(s.(world := s.world.(icePending := false)), tracksOk);
    if c.accepted then StartReading(c) else c
  }

  function ReadEnded(s: State): State {
    s.(reading := false, world := s.world.(future := Unused))
  }

  function HandleReadObjLen(s: State, octets: seq<octet>): State {
    if |octets| != 4 then ReadObjLength(s)
    else
      var length := FromLe32(octets);
      var known := s.(objectLength := length);
      if length < 1 then ReadObjLength(known) else ReadObj(known, length)
  }

  function OnLength(s: State, result: ReadResult): State {
    var idle := ReadEnded(s);
    match result
    case Eof => CloseStream(idle)
    case Failed => Cleanup(idle)
    case Got(octets) => HandleReadObjLen(idle, octets)
  }

  /** The object handed to the connection. */
  function Delivered(s: State, octets: seq<octet>): State {
    s.(world := s.world.(inbox := s.world.inbox + [octets]))
  }

  function Perform(s: State, effects: seq<Effect>): State
    requires forall e :: e in effects && e.Reply? ==> Sendable(e.m)
    decreases |effects|
  {
    if effects == [] then s
    else
      assert effects[0] in effects;
      Perform(match effects[0] case Reply(m) => SendObject(s, m) case EndConnection => CloseStream(s),
              effects[1..])
  }

  function OnObject(s: State, result: ReadResult, effects: seq<Effect>): State
    requires forall e :: e in effects && e.Reply? ==> Sendable(e.m)
  {
    var idle := ReadEnded(s);
    match result
    case Eof => CloseStream(idle)
    case Failed => Cleanup(idle)
    case Got(octets) =>
      if |octets| < s.objectLength || !s.connected then ReadObjLength(idle)
      else ReadObjLength(Perform(Delivered(idle, octets), effects))
  }

  function WriteEnded(s: State): State {
    s.(writeBuf := None, world := s.world.(writesDone := s.world.writesDone + 1))
  }

  function OnWrite(s: State): State {
    TryWriteStream(WriteEnded(s))
  }

  function OnClosed(s: State): State {
    var idle := s.(closing := false);
    if !s.reading && s.writeBuf == None then Cleanup(idle) else idle
  }

  /** The events that can happen in a state: completions of pending operations, and calls from outside. */
  predicate Enabled(s: State, e: Event) {
    match e
    case AcceptDone(_) => s.world.future == Accepting
    case IceDone(_) => s.world.icePending
    case LengthRead(r) => s.world.future == ReadingLength && (r.Got? ==> |r.octets| <= 4)
    case ObjectRead(r, effects) =>
      && s.world.future == ReadingObject && (r.Got? ==> |r.octets| <= s.objectLength)
      && forall e :: e in effects && e.Reply? ==> Sendable(e.m)
    case WriteDone => s.writeBuf.Some?
    case CloseDone => s.closing
    case ConnectionEnded => !s.world.icePending
    case Send(m) => !s.world.icePending && Sendable(m)
    case AddTracks(_, _) => true
  }

  function Step(s: State, e: Event): State
    requires Enabled(s, e)
  {
    match e
    case AcceptDone(ok) => OnAccept(s, ok)
    case IceDone(ok) => OnIce(s, ok)
    case LengthRead(r) => OnLength(s, r)
    case ObjectRead(r, effects) => OnObject(s, r, effects)
    case WriteDone => OnWrite(s)
    case CloseDone => OnClosed(s)
    case ConnectionEnded => CloseStream(s)
    case Send(m) => SendObject(s, m)
    case AddTracks(tracks, ok) =>
      CreateTracks(s.(world := s.world.(added := s.world.added + tracks)), tracks, ok)
  }
}
