/**
 The device against the polite peer of perfect negotiation (section 10.7 of WebRTC 1.0), over two FIFO
 channels. Making a description and sending it is one step on either side.
 */
module Glare {
  import opened Bytes
  import opened MetaTracks
  import opened Negotiation

  // --- The composed system ------------------------------------------------------------------

  /**
   `toPeer` and `toDevice` are the messages on their way; `ignored` lists the offers that the device has
   ignored, `rolledBack` those that the peer has rolled back, `rejected` says that a peer connection has
   thrown an exception over a message.
   */
  datatype System = System(
    device: Device,
    peer: PeerConnection,
    toPeer: seq<Message>,
    toDevice: seq<Message>,
    ignored: seq<nat>,
    rolledBack: seq<nat>,
    rejected: bool)

  const START: System := System(NEW_DEVICE, NEW_CONNECTION, [], [], [], [], false)

  datatype Move =
    | DeviceOffers(tracks: seq<MediaTrack>, sdp: nat)
    | PeerOffers(sdp: nat, metadata: Metadata)
    | DeviceReceives(choice: Choice)
    | PeerReceives(answer: nat, metadata: Metadata)

  predicate Enabled(s: System, m: Move) {
    match m
    case DeviceOffers(_, _) => true
    case PeerOffers(_, _) => s.peer.state == Stable
    case DeviceReceives(_) => s.toDevice != []
    case PeerReceives(_, _) => s.toPeer != []
  }

  function DeviceStep(s: System, choice: Choice): System
    requires s.toDevice != []
  {
    var m := s.toDevice[0];
    var r := HandleSignalingMessage(s.device, m, choice);
    s.(device := r.device, toDevice := s.toDevice[1..], toPeer := s.toPeer + r.sent,
       ignored := if r.device.ignoreOffer then s.ignored + [m.description.sdp] else s.ignored,
       rejected := s.rejected || (!r.device.ignoreOffer && SetRemote(s.device.pc, m.description) == None))
  }

  /** The polite peer takes every offer, rolling its own back if it has to. */
  function PeerStep(s: System, answer: nat, metadata: Metadata): System
    requires s.toPeer != []
  {
    var d, rest := s.toPeer[0].description, s.toPeer[1..];
    var pc := if d.Offer? then Rollback(s.peer) else s.peer;
    match SetRemote(pc, d)
    case None => s.(toPeer := rest, rejected := true)
    case Some(remote) =>
      if d.Answer? then s.(toPeer := rest, peer := remote)
      else
        s.(toPeer := rest, peer := SetLocal(remote, Answer(answer)).value,
           toDevice := s.toDevice + [Message(Answer(answer), metadata)],
           rolledBack := if s.peer.state == HaveLocalOffer then s.rolledBack + [s.peer.pending] else s.rolledBack)
  }

  function Next(s: System, m: Move): System
    requires Enabled(s, m)
  {
    match m
    case DeviceOffers(tracks, sdp) =>
      var r := CreateTracks(s.device, tracks, sdp);
      s.(device := r.device, toPeer := s.toPeer + r.sent)
    case PeerOffers(sdp, metadata) =>
      s.(peer := SetLocal(s.peer, Offer(sdp)).value, toDevice := s.toDevice + [Message(Offer(sdp), metadata)])
    case DeviceReceives(choice) => DeviceStep(s, choice)
    case PeerReceives(answer, metadata) => PeerStep(s, answer, metadata)
  }

  ghost predicate Possible(s: System, run: seq<Move>)
    decreases |run|
  {
    run != [] ==> Enabled(s, run[0]) && Possible(Next(s, run[0]), run[1..])
  }

  ghost function After(s: System, run: seq<Move>): System
    requires Possible(s, run)
    decreases |run|
  {
    if run == [] then s else After(Next(s, run[0]), run[1..])
  }

  // --- The invariant ------------------------------------------------------------------------

  predicate Carries(ms: seq<Message>, ds: seq<Description>) {
    |ms| == |ds| && forall i :: 0 <= i < |ms| ==> ms[i].description == ds[i]
  }

  /** Between exchanges, or with one offer on its way to a stable side. */
  ghost predicate DeviceStable(s: System) {
    var x := s.peer.pending;
    s.ignored == s.rolledBack &&
    match s.peer.state
    case Stable => s.toPeer == [] && s.toDevice == [] && s.device.pc.agreed == s.peer.agreed
    case HaveLocalOffer =>
      || (s.toPeer == [] && Carries(s.toDevice, [Offer(x)]) && s.device.pc.agreed == s.peer.agreed)
      || (s.toDevice == [] && |s.toPeer| == 1 && s.toPeer[0].description.Answer?
          && s.device.pc.agreed == s.peer.agreed + [Agreement(x, s.toPeer[0].description.sdp)])
    case HaveRemoteOffer => false
  }

  /** The peer has taken the device's offer `y`: the answer is on its way, perhaps behind a lost offer. */
  ghost predicate PeerHasAnswered(s: System, y: nat, after: seq<Description>) {
    var n := |s.peer.agreed| - 1;
    && s.toPeer == [] && n >= 0 && s.peer.agreed[n].offer == y && s.device.pc.agreed == s.peer.agreed[..n]
    && var a := Answer(s.peer.agreed[n].answer);
       || (s.ignored == s.rolledBack && Carries(s.toDevice, [a] + after))
       || (|s.rolledBack| > 0 && s.rolledBack == s.ignored + [s.rolledBack[|s.rolledBack| - 1]]
           && Carries(s.toDevice, [Offer(s.rolledBack[|s.rolledBack| - 1]), a] + after))
  }

  ghost predicate DeviceWaiting(s: System) {
    var x, y := s.peer.pending, s.device.pc.pending;
    match s.peer.state
    case Stable =>
      || (s.ignored == s.rolledBack && Carries(s.toPeer, [Offer(y)]) && s.toDevice == []
          && s.device.pc.agreed == s.peer.agreed)
      || PeerHasAnswered(s, y, [])
    case HaveLocalOffer =>
      // both offers on their way, or the peer's already ignored
      || (Carries(s.toPeer, [Offer(y)]) && s.device.pc.agreed == s.peer.agreed
          && ((s.ignored == s.rolledBack && Carries(s.toDevice, [Offer(x)]))
              || (s.ignored == s.rolledBack + [x] && s.toDevice == [])))
      // the device has answered the peer's offer and then offered
      || (s.ignored == s.rolledBack && s.toDevice == [] && |s.toPeer| == 2
          && s.toPeer[0].description.Answer? && s.toPeer[1].description == Offer(y)
          && s.device.pc.agreed == s.peer.agreed + [Agreement(x, s.toPeer[0].description.sdp)])
      // the peer has answered the device's offer and then offered
      || PeerHasAnswered(s, y, [Offer(x)])
    case HaveRemoteOffer => false
  }

  ghost predicate Inv(s: System) {
    && !s.rejected && !s.device.polite && !s.device.makingOffer
    && match s.device.pc.state
       case Stable => DeviceStable(s)
       case HaveLocalOffer => DeviceWaiting(s)
       case HaveRemoteOffer => false
  }

  lemma DeviceOffersKeeps(s: System, tracks: seq<MediaTrack>, sdp: nat)
    requires Inv(s)
    ensures Inv(Next(s, DeviceOffers(tracks, sdp)))
  {
    AppendNothing(s.toPeer);
    AppendNothing(CreateTracks(s.device, tracks, sdp).sent);
  }

  lemma PeerOffersKeeps(s: System, sdp: nat, metadata: Metadata)
    requires Inv(s) && s.peer.state == Stable
    ensures Inv(Next(s, PeerOffers(sdp, metadata)))
  {
  }

  /** The state after the device has ignored the offer at the head of its channel. */
  ghost function Ignoring(s: System): System
    requires s.toDevice != []
  {
    s.(device := s.device.(ignoreOffer := true), toDevice := s.toDevice[1..],
       ignored := s.ignored + [s.toDevice[0].description.sdp])
  }

  lemma IgnoringIs(s: System, choice: Choice)
    requires Inv(s) && s.toDevice != [] && s.toDevice[0].description.Offer? && s.device.pc.state != Stable
    ensures DeviceStep(s, choice) == Ignoring(s)
  {
    MessageHandled(s.device, s.toDevice[0], choice);
    AppendNothing(s.toPeer);
  }

  lemma CarriesTail(ms: seq<Message>, ds: seq<Description>)
    requires Carries(ms, ds) && ms != []
    ensures ms[0].description == ds[0] && Carries(ms[1..], ds[1..])
  {
  }

  /** An offer ahead of the peer's answer is the one that the peer has rolled back. */
  lemma IgnoringBeforeAnswer(s: System, y: nat, after: seq<Description>)
    requires s.toDevice != [] && s.toDevice[0].description.Offer? && PeerHasAnswered(s, y, after)
    ensures PeerHasAnswered(Ignoring(s), y, after)
  {
    var a := Answer(s.peer.agreed[|s.peer.agreed| - 1].answer);
    assert ([a] + after)[0] == a;
    var r := s.rolledBack[|s.rolledBack| - 1];
    var ds := [Offer(r), a] + after;
    assert ds[1..] == [a] + after;
    CarriesTail(s.toDevice, ds);
  }

  /** Otherwise it is the offer that the peer still waits for. */
  lemma IgnoringWhileCrossing(s: System)
    requires Carries(s.toDevice, [Offer(s.peer.pending)])
    ensures Ignoring(s).toDevice == [] && Ignoring(s).ignored == s.ignored + [s.peer.pending]
  {
  }

  lemma DeviceIgnoresKeeps(s: System, choice: Choice)
    requires Inv(s) && s.toDevice != [] && s.toDevice[0].description.Offer? && s.device.pc.state != Stable
    ensures Inv(DeviceStep(s, choice))
  {
    var y := s.device.pc.pending;
    IgnoringIs(s, choice);
    if s.peer.state == Stable {
      IgnoringBeforeAnswer(s, y, []);
    } else if PeerHasAnswered(s, y, [Offer(s.peer.pending)]) {
      IgnoringBeforeAnswer(s, y, [Offer(s.peer.pending)]);
    } else {
      IgnoringWhileCrossing(s);
    }
  }

  lemma DeviceAnswersKeeps(s: System, choice: Choice)
    requires Inv(s) && s.toDevice != [] && s.toDevice[0].description.Offer? && s.device.pc.state == Stable
    ensures Inv(DeviceStep(s, choice))
  {
    var t := DeviceStep(s, choice);
    MessageHandled(s.device, s.toDevice[0], choice);
    assert s.toPeer == [] && t.toDevice == [];
    AppendNothing(HandleSignalingMessage(s.device, s.toDevice[0], choice).sent);
  }

  /** The answer to the device's offer settles the exchange that the peer has completed before. */
  lemma AnswerTaken(s: System, choice: Choice, after: seq<Description>)
    requires !s.rejected && s.device.pc.state == HaveLocalOffer
    requires s.toDevice != [] && s.toDevice[0].description.Answer?
    requires PeerHasAnswered(s, s.device.pc.pending, after)
    ensures var t := DeviceStep(s, choice);
            && t.peer == s.peer && t.toPeer == [] && !t.rejected && t.ignored == t.rolledBack
            && t.device.polite == s.device.polite && t.device.makingOffer == s.device.makingOffer
            && t.device.pc.state == Stable && t.device.pc.agreed == s.peer.agreed
            && Carries(t.toDevice, after)
  {
    var n := |s.peer.agreed| - 1;
    var a := Answer(s.peer.agreed[n].answer);
    assert s.peer.agreed == s.peer.agreed[..n] + [s.peer.agreed[n]];
    assert ([a] + after)[0] == a && ([a] + after)[1..] == after;
    AppendNothing(s.toPeer);
    CarriesTail(s.toDevice, [a] + after);
  }

  lemma DeviceTakesAnswerKeeps(s: System, choice: Choice)
    requires Inv(s) && s.toDevice != [] && s.toDevice[0].description.Answer?
    ensures Inv(DeviceStep(s, choice))
  {
    AnswerTaken(s, choice, if s.peer.state == Stable then [] else [Offer(s.peer.pending)]);
  }

  lemma PeerReceivesKeeps(s: System, answer: nat, metadata: Metadata)
    requires Inv(s) && s.toPeer != []
    ensures Inv(PeerStep(s, answer, metadata))
  {
  }

  lemma NextKeeps(s: System, m: Move)
    requires Inv(s) && Enabled(s, m)
    ensures Inv(Next(s, m))
  {
    match m
    case DeviceOffers(tracks, sdp) => DeviceOffersKeeps(s, tracks, sdp);
    case PeerOffers(sdp, metadata) => PeerOffersKeeps(s, sdp, metadata);
    case DeviceReceives(choice) =>
      if s.toDevice[0].description.Answer? {
        DeviceTakesAnswerKeeps(s, choice);
      } else if s.device.pc.state == Stable {
        DeviceAnswersKeeps(s, choice);
      } else {
        DeviceIgnoresKeeps(s, choice);
      }
    case PeerReceives(answer, metadata) => PeerReceivesKeeps(s, answer, metadata);
  }

  lemma {:induction false} InvHolds(s: System, run: seq<Move>)
    requires Inv(s) && Possible(s, run)
    ensures Inv(After(s, run))
    decreases |run|
  {
    if run != [] {
      NextKeeps(s, run[0]);
      InvHolds(Next(s, run[0]), run[1..]);
    }
  }

  // --- Safety -------------------------------------------------------------------------------

  /** The offer ignored last has not reached the point where the peer rolls it back. */
  ghost predicate RollbackAhead(s: System) {
    && s.peer.state == HaveLocalOffer && s.ignored == s.rolledBack + [s.peer.pending]
    && Carries(s.toPeer, [Offer(s.device.pc.pending)])
  }

  /** The offer rolled back last is the next message to the device. */
  ghost predicate IgnoringAhead(s: System) {
    && s.toDevice != [] && s.toDevice[0].description.Offer? && s.device.pc.state == HaveLocalOffer
    && s.rolledBack == s.ignored + [s.toDevice[0].description.sdp]
  }

  /**
   Safety of glare, in every run: no peer connection ever rejects a message; the device ignores exactly
   the offers that the peer rolls back, in the same order, one of them at most still being ahead; and
   whenever both channels are empty both sides are stable and have completed the same exchanges.
   */
  lemma GlareSafety(run: seq<Move>)
    requires Possible(START, run)
    ensures var s := After(START, run);
            && !s.rejected
            && (s.ignored == s.rolledBack || RollbackAhead(s) || IgnoringAhead(s))
            && (s.toPeer == [] && s.toDevice == [] ==>
                  && s.device.pc.state == Stable && s.peer.state == Stable
                  && s.device.pc.agreed == s.peer.agreed && s.ignored == s.rolledBack)
  {
    InvHolds(START, run);
  }

  // --- What the device remembers ------------------------------------------------------------

  /** The device takes a description that says that the client does not trickle. */
  predicate TakesNoTrickle(s: System, m: Move)
    requires Enabled(s, m)
  {
    m.DeviceReceives? &&
      var x := s.toDevice[0];
      x.metadata.noTrickle && (x.description.Answer? || s.device.polite || !Collides(s.device, x.description))
  }

  ghost predicate NoTrickleIn(s: System, run: seq<Move>)
    requires Possible(s, run)
    decreases |run|
  {
    run != [] && (TakesNoTrickle(s, run[0]) || NoTrickleIn(Next(s, run[0]), run[1..]))
  }

  function TracksIn(run: seq<Move>): seq<MediaTrack> {
    if run == [] then [] else (if run[0].DeviceOffers? then run[0].tracks else []) + TracksIn(run[1..])
  }

  lemma MoveRemembers(s: System, m: Move)
    requires Enabled(s, m)
    ensures var d := Next(s, m).device;
            && (d.canTrickle <==> s.device.canTrickle && !TakesNoTrickle(s, m))
            && d.mediaTracks == s.device.mediaTracks + if m.DeviceOffers? then m.tracks else []
  {
    AppendNothing(s.device.mediaTracks);
    match m
    case DeviceOffers(_, _) =>
    case PeerOffers(_, _) =>
    case DeviceReceives(choice) => MessageHandled(s.device, s.toDevice[0], choice);
    case PeerReceives(_, _) =>
  }

  lemma {:induction false} RunRemembers(s: System, run: seq<Move>)
    requires Possible(s, run)
    ensures var d := After(s, run).device;
            && (d.canTrickle <==> s.device.canTrickle && !NoTrickleIn(s, run))
            && d.mediaTracks == s.device.mediaTracks + TracksIn(run)
    decreases |run|
  {
    if run == [] {
      AppendNothing(s.device.mediaTracks);
    } else {
      MoveRemembers(s, run[0]);
      RunRemembers(Next(s, run[0]), run[1..]);
      AppendAssociates(s.device.mediaTracks, if run[0].DeviceOffers? then run[0].tracks else [], TracksIn(run[1..]));
    }
  }

  /**
   In every run the device trickles unless it has taken a description with noTrickle, and its media tracks
   are those created, in order.
   */
  lemma DeviceRemembers(run: seq<Move>)
    requires Possible(START, run)
    ensures var d := After(START, run).device;
            (d.canTrickle <==> !NoTrickleIn(START, run)) && d.mediaTracks == TracksIn(run)
  {
    RunRemembers(START, run);
    AppendNothing(TracksIn(run));
  }

  // --- Convergence --------------------------------------------------------------------------

  /** Receiving without offering anew. */
  predicate Quiet(m: Move) {
    m.PeerReceives? || (m.DeviceReceives? && !m.choice.again)
  }

  function Weight(ms: seq<Message>): nat {
    if ms == [] then 0 else Weight(ms[..|ms| - 1]) + if ms[|ms| - 1].description.Offer? then 2 else 1
  }

  lemma {:induction false} WeightTail(ms: seq<Message>)
    requires ms != []
    ensures Weight(ms) == Weight(ms[1..]) + if ms[0].description.Offer? then 2 else 1
    decreases |ms|
  {
    if |ms| > 1 {
      assert ms[..|ms| - 1][1..] == ms[1..][..|ms| - 2];
      WeightTail(ms[..|ms| - 1]);
    }
  }

  lemma WeightAppend(ms: seq<Message>, m: Message)
    ensures Weight(ms + [m]) == Weight(ms) + if m.description.Offer? then 2 else 1
  {
    assert (ms + [m])[..|ms|] == ms;
  }

  function TotalWeight(s: System): nat {
    Weight(s.toPeer) + Weight(s.toDevice)
  }

  lemma DeviceReceivesLighter(s: System, choice: Choice)
    requires Inv(s) && s.toDevice != [] && !choice.again
    ensures TotalWeight(DeviceStep(s, choice)) < TotalWeight(s)
  {
    WeightTail(s.toDevice);
    var m := s.toDevice[0];
    var r := HandleSignalingMessage(s.device, m, choice);
    MessageHandled(s.device, m, choice);
    if m.description.Offer? && !r.device.ignoreOffer {
      assert r.sent == [r.sent[0]];
      WeightAppend(s.toPeer, r.sent[0]);
    } else {
      assert r.sent == [];
      AppendNothing(s.toPeer);
    }
  }

  lemma PeerReceivesLighter(s: System, answer: nat, metadata: Metadata)
    requires Inv(s) && s.toPeer != []
    ensures TotalWeight(PeerStep(s, answer, metadata)) < TotalWeight(s)
  {
    WeightTail(s.toPeer);
    WeightAppend(s.toDevice, Message(Answer(answer), metadata));
  }

  lemma QuietMoveLighter(s: System, m: Move)
    requires Inv(s) && Enabled(s, m) && Quiet(m)
    ensures TotalWeight(Next(s, m)) < TotalWeight(s)
  {
    match m
    case DeviceReceives(choice) => DeviceReceivesLighter(s, choice);
    case PeerReceives(answer, metadata) => PeerReceivesLighter(s, answer, metadata);
  }

  /**
   Convergence: from any reachable state, when neither side offers anew, the messages run out after at
   most twice the offers plus the answers under way, and then both sides are stable, have completed the
   same exchanges, and the peer has rolled back what the device has ignored.
   */
  lemma {:induction false} Convergence(s: System, run: seq<Move>)
    requires Inv(s) && Possible(s, run) && forall m :: m in run ==> Quiet(m)
    ensures var t := After(s, run);
            && TotalWeight(t) + |run| <= TotalWeight(s)
            && (|run| == TotalWeight(s) ==> t.toPeer == [] && t.toDevice == [])
            && (t.toPeer == [] && t.toDevice == [] ==>
                  && t.device.pc.state == Stable && t.peer.state == Stable
                  && t.device.pc.agreed == t.peer.agreed && t.ignored == t.rolledBack)
    decreases |run|
  {
    if run == [] {
      if s.toPeer != [] {
        WeightTail(s.toPeer);
      }
      if s.toDevice != [] {
        WeightTail(s.toDevice);
      }
    } else {
      assert run[0] in run;
      QuietMoveLighter(s, run[0]);
      NextKeeps(s, run[0]);
      Convergence(Next(s, run[0]), run[1..]);
    }
  }
}
