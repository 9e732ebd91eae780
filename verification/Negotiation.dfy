/**
 The offer/answer state machine of a peer connection (section 3.2 of RFC 8829) and the specification
 of the device on top of it, the impolite side of perfect negotiation.
 */
module Negotiation {
  import opened Bytes
  import opened MetaTracks

  // --- The peer connection ------------------------------------------------------------------

  /** Session descriptions are told apart by a label. */
  datatype Description = Offer(sdp: nat) | Answer(sdp: nat)

  datatype SignalingState = Stable | HaveLocalOffer | HaveRemoteOffer

  /** The offer and the answer that a completed exchange has settled on. */
  datatype Agreement = Agreement(offer: nat, answer: nat)

  /** `pending` is the offer not answered yet, outside the stable state; `agreed` lists the exchanges completed. */
  datatype PeerConnection = PeerConnection(
    state: SignalingState,
    pending: nat,
    agreed: seq<Agreement>)

  const NEW_CONNECTION: PeerConnection := PeerConnection(Stable, 0, [])

  /** `None` is the exception thrown in any other state. */
  function SetLocal(pc: PeerConnection, d: Description): Option<PeerConnection> {
    match (pc.state, d)
    case (Stable, Offer(x)) => Some(pc.(state := HaveLocalOffer, pending := x))
    case (HaveRemoteOffer, Answer(a)) =>
      Some(pc.(state := Stable, agreed := pc.agreed + [Agreement(pc.pending, a)]))
    case _ => None
  }

  function SetRemote(pc: PeerConnection, d: Description): Option<PeerConnection> {
    match (pc.state, d)
    case (Stable, Offer(x)) => Some(pc.(state := HaveRemoteOffer, pending := x))
    case (HaveLocalOffer, Answer(a)) => Some(pc.(state := Stable, agreed := pc.agreed + [Agreement(pc.pending, a)]))
    case _ => None
  }

  function Rollback(pc: PeerConnection): PeerConnection {
    if pc.state == HaveLocalOffer then pc.(state := Stable) else pc
  }

  // --- The device ---------------------------------------------------------------------------

  datatype Message = Message(description: Description, metadata: Metadata)

  datatype Device = Device(
    polite: bool,
    makingOffer: bool,
    ignoreOffer: bool,
    metadata: Metadata,
    canTrickle: bool,
    mediaTracks: seq<MediaTrack>,
    pc: PeerConnection)

  const NEW_DEVICE: Device :=
    Device(false, false, false, Metadata(None, None, false), true, [], NEW_CONNECTION)

  /** What the peer connection decides: the answer it makes, whether it wants to offer after it, and what. */
  datatype Choice = Choice(answer: nat, again: bool, offer: nat)

  /** A new state and the messages handed to the signaling stream. */
  datatype Reaction = Reaction(device: Device, sent: seq<Message>)

  function SetMetadata(d: Device, md: Metadata): Device {
    d.(metadata := md, canTrickle := d.canTrickle && !md.noTrickle)
  }

  /** Sends an offer or an answer with the metadata brought up to date. */
  function SendLocal(d: Device, description: Description): Reaction {
    var md := UpdateMetadata(d.metadata, d.mediaTracks);
    Reaction(d.(metadata := md), [Message(description, md)])
  }

  /** After an answer, which leaves the connection stable, negotiation may be needed again. */
  function SendDescription(d: Device, description: Description, choice: Choice): Reaction
    requires description.Answer? ==> d.pc.state == Stable
  {
    var r := SendLocal(d, description);
    if description.Answer? && choice.again then
      var offer := Offer(choice.offer);
      var next := SendLocal(r.device.(pc := SetLocal(d.pc, offer).value), offer);
      Reaction(next.device, r.sent + next.sent)
    else r
  }

  predicate Collides(d: Device, description: Description) {
    description.Offer? && (d.makingOffer || d.pc.state != Stable)
  }

  function HandleSignalingMessage(d: Device, m: Message, choice: Choice): Reaction {
    var ignore := !d.polite && Collides(d, m.description);
    var flagged := d.(ignoreOffer := ignore);
    if ignore then Reaction(flagged, [])
    else
      var known := SetMetadata(flagged, m.metadata);
      match SetRemote(known.pc, m.description)
      case None => Reaction(known, [])
      case Some(pc) =>
        if m.description.Answer? then Reaction(known.(pc := pc), [])
        else
          var answer := Answer(choice.answer);
          SendDescription(known.(pc := SetLocal(pc, answer).value), answer, choice)
  }

  function PushTracks(md: Metadata, ms: seq<MediaTrack>): Metadata {
    md.(tracks := Some((if md.tracks.Some? then md.tracks.value else [])
                       + seq(|ms|, i requires 0 <= i < |ms| => Entry(Some(ms[i].mid), ms[i].trackId, None))))
  }

  lemma PushOneMore(md: Metadata, ms: seq<MediaTrack>, k: nat)
    requires k < |ms|
    ensures ms[..k + 1] == ms[..k] + [ms[k]]
    ensures var pushed := if k == 0 then md else PushTracks(md, ms[..k]);
            var entries := if pushed.tracks.Some? then pushed.tracks.value else [];
            PushTracks(md, ms[..k + 1])
            == pushed.(tracks := Some(entries + [Entry(Some(ms[k].mid), ms[k].trackId, None)]))
  {
    var before := if md.tracks.Some? then md.tracks.value else [];
    assert PushTracks(md, ms[..k + 1]).tracks.value
        == (before + PushTracks(md, ms[..k]).tracks.value[|before|..])
           + [Entry(Some(ms[k].mid), ms[k].trackId, None)];
    if k == 0 {
      AppendNothing(before);
    }
  }

  /** `setLocalDescription` without a type: an answer to a remote offer, an offer otherwise. */
  function LocalDescription(pc: PeerConnection, sdp: nat): Description {
    if pc.state == HaveRemoteOffer then Answer(sdp) else Offer(sdp)
  }

  /** The tracks created, in the list of the metadata and among the media tracks. */
  function ListTracks(d: Device, ms: seq<MediaTrack>): Device {
    d.(metadata := if ms == [] then d.metadata else PushTracks(d.metadata, ms),
       mediaTracks := d.mediaTracks + ms)
  }

  /**
   Tracks created by the device make it offer, if the connection is stable. While its last offer is not
   answered the exception leaves the tracks listed, and nothing is sent.
   */
  function CreateTracks(d: Device, ms: seq<MediaTrack>, sdp: nat): Reaction {
    var added := ListTracks(d, ms);
    var description := LocalDescription(d.pc, sdp);
    match SetLocal(d.pc, description)
    case None => Reaction(added, [])
    case Some(pc) =>
      if pc.state == HaveLocalOffer then SendLocal(added.(pc := pc), description)
      else Reaction(added.(pc := pc), [])
  }

  // --- What the client is told --------------------------------------------------------------

  /** The track list of the metadata, empty if there is none. */
  function Tracks(md: Metadata): seq<Entry> {
    if md.tracks.Some? then md.tracks.value else []
  }

  /** `t` lists what `es` lists, and after it the tracks `ms` with their mids and identifiers. */
  ghost predicate Lists(t: seq<Entry>, es: seq<Entry>, ms: seq<MediaTrack>) {
    && |es| + |ms| <= |t|
    && (forall i :: 0 <= i < |es| ==> t[i].mid == es[i].mid && t[i].trackId == es[i].trackId)
    && (forall k :: 0 <= k < |ms| ==> t[|es| + k].mid == Some(ms[k].mid) && t[|es| + k].trackId == ms[k].trackId)
  }

  /** It lists nothing else, and changes nothing that was listed. */
  ghost predicate ListsOnly(t: seq<Entry>, es: seq<Entry>, ms: seq<MediaTrack>) {
    && Lists(t, es, ms) && |t| == |es| + |ms|
    && (forall i :: 0 <= i < |es| ==> t[i] == es[i])
    && (forall i :: |es| <= i < |t| ==> t[i].error == None)
  }

  /** The tracks `ms` come after those that there were. */
  ghost predicate Follows(all: seq<MediaTrack>, before: seq<MediaTrack>, ms: seq<MediaTrack>) {
    && |all| == |before| + |ms|
    && (forall i :: 0 <= i < |before| ==> all[i] == before[i])
    && (forall k :: 0 <= k < |ms| ==> all[|before| + k] == ms[k])
  }

  lemma UpdateStillLists(md: Metadata, all: seq<MediaTrack>, es: seq<Entry>, ms: seq<MediaTrack>)
    requires md.tracks.Some? && Lists(md.tracks.value, es, ms)
    ensures var r := UpdateMetadata(md, all);
            r.tracks.Some? && r.noTrickle == md.noTrickle && Lists(r.tracks.value, es, ms)
  {
    UpdateEffect(md.tracks.value, all);
    var t, r := md.tracks.value, UpdateAll(md.tracks.value, all);
    forall i | 0 <= i < |t| ensures r[i].mid == t[i].mid && r[i].trackId == t[i].trackId {
      assert Listing(t, all)[i] == t[i];
    }
  }

  /** The device with the tracks listed, before its local description. */
  ghost predicate Listed(added: Device, d: Device, ms: seq<MediaTrack>) {
    && Follows(added.mediaTracks, d.mediaTracks, ms)
    && added.metadata.noTrickle == d.metadata.noTrickle && added.canTrickle == d.canTrickle && added.pc == d.pc
    && if ms == [] then added.metadata == d.metadata
       else added.metadata.tracks.Some? && ListsOnly(added.metadata.tracks.value, Tracks(d.metadata), ms)
  }

  lemma TracksListed(d: Device, ms: seq<MediaTrack>)
    ensures Listed(ListTracks(d, ms), d, ms)
  {
  }

  /**
   Tracks created on a stable connection follow the media tracks of the device, and the one message sent is
   an offer whose list names them, errors told, after the entries that it had.
   */
  lemma TracksOffered(d: Device, ms: seq<MediaTrack>, sdp: nat)
    requires d.pc.state == Stable
    ensures var r := CreateTracks(d, ms, sdp);
            && Follows(r.device.mediaTracks, d.mediaTracks, ms)
            && (ms != [] || d.metadata.tracks.Some? ==>
                  r.device.metadata.tracks.Some? && Lists(r.device.metadata.tracks.value, Tracks(d.metadata), ms))
            && r.device.metadata.noTrickle == d.metadata.noTrickle && r.device.canTrickle == d.canTrickle
            && r.sent == [Message(Offer(sdp), r.device.metadata)]
            && r.device.pc == PeerConnection(HaveLocalOffer, sdp, d.pc.agreed)
  {
    var added := ListTracks(d, ms);
    TracksListed(d, ms);
    if ms != [] || d.metadata.tracks.Some? {
      UpdateStillLists(added.metadata, added.mediaTracks, Tracks(d.metadata), ms);
    }
  }

  /**
   While an offer of the device is not answered the exception leaves the tracks listed, nothing is sent and
   nothing else changes; after an offer of the client the answer completes the exchange.
   */
  lemma TracksNotOffered(d: Device, ms: seq<MediaTrack>, sdp: nat)
    requires d.pc.state != Stable
    ensures var r := CreateTracks(d, ms, sdp);
            && Follows(r.device.mediaTracks, d.mediaTracks, ms)
            && (if ms == [] then r.device.metadata == d.metadata
                else r.device.metadata.tracks.Some?
                     && ListsOnly(r.device.metadata.tracks.value, Tracks(d.metadata), ms))
            && r.device.metadata.noTrickle == d.metadata.noTrickle && r.device.canTrickle == d.canTrickle
            && r.sent == []
            && r.device.pc == if d.pc.state == HaveLocalOffer then d.pc
                              else PeerConnection(Stable, d.pc.pending, d.pc.agreed + [Agreement(d.pc.pending, sdp)])
  {
    TracksListed(d, ms);
  }

  /** A description that is not ignored brings its metadata with it; trickling is only ever turned off. */
  ghost predicate Takes(r: Device, d: Device, m: Message) {
    && r.polite == d.polite && r.makingOffer == d.makingOffer && r.mediaTracks == d.mediaTracks
    && (r.canTrickle <==> d.canTrickle && !m.metadata.noTrickle)
  }

  /**
   Every description that arrives, in every state. An offer in a collision is ignored by the impolite side.
   Otherwise the metadata is taken, even if the connection then rejects the description. An offer taken is
   answered, with the metadata brought up to date, and perhaps followed by an offer; an answer settles the
   exchange and nothing is sent.
   */
  lemma MessageHandled(d: Device, m: Message, choice: Choice)
    ensures var r, x := HandleSignalingMessage(d, m, choice), m.description.sdp;
            var ignored := !d.polite && m.description.Offer? && (d.makingOffer || d.pc.state != Stable);
            && (r.device.ignoreOffer <==> ignored)
            && (ignored ==> r == Reaction(d.(ignoreOffer := true), []))
            && (!ignored ==> Takes(r.device, d, m))
            && (!ignored && m.description.Offer? && d.pc.state == Stable ==>
                  var first := UpdateMetadata(m.metadata, d.mediaTracks);
                  var agreed := d.pc.agreed + [Agreement(x, choice.answer)];
                  if choice.again then
                    var second := UpdateMetadata(first, d.mediaTracks);
                    && r.sent == [Message(Answer(choice.answer), first), Message(Offer(choice.offer), second)]
                    && r.device.metadata == second
                    && r.device.pc == PeerConnection(HaveLocalOffer, choice.offer, agreed)
                  else
                    && r.sent == [Message(Answer(choice.answer), first)] && r.device.metadata == first
                    && r.device.pc == PeerConnection(Stable, x, agreed))
            && (m.description.Answer? && d.pc.state == HaveLocalOffer ==>
                  && r.sent == [] && r.device.metadata == m.metadata
                  && r.device.pc == PeerConnection(Stable, d.pc.pending, d.pc.agreed + [Agreement(d.pc.pending, x)]))
            && (!ignored && m.description.Offer? && d.pc.state != Stable ==>
                  r.sent == [] && r.device.metadata == m.metadata && r.device.pc == d.pc)
            && (m.description.Answer? && d.pc.state != HaveLocalOffer ==>
                  r.sent == [] && r.device.metadata == m.metadata && r.device.pc == d.pc)
  {
  }
}
