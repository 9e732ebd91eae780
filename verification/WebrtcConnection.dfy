/** The device side of one connection, its negotiation state changed in place. */
module Webrtc {
  import opened Bytes
  import opened MetaTracks
  import opened Negotiation

  class WebrtcConnection {
    var polite: bool
    var makingOffer: bool
    var ignoreOffer: bool
    var metadata: Metadata
    var canTrickle: bool
    var mediaTracks: seq<MediaTrack>
    var pc: PeerConnection
    /** Messages handed to the signaling stream. */
    ghost var outbox: seq<Message>

    ghost function Value(): Device
      reads this
    {
      Device(polite, makingOffer, ignoreOffer, metadata, canTrickle, mediaTracks, pc)
    }

    constructor ()
      ensures Value() == NEW_DEVICE && outbox == []
    {
      polite, makingOffer, ignoreOffer := false, false, false;
      metadata, canTrickle, mediaTracks, pc := Metadata(None, None, false), true, [], NEW_CONNECTION;
      outbox := [];
    }

    method SetMetadata(md: Metadata)
      modifies this`metadata, this`canTrickle
      ensures Value() == Negotiation.SetMetadata(old(Value()), md)
    {
      metadata := md;
      if md.noTrickle {
        canTrickle := false;
      }
    }

    /** The search through the list for one media track; `broken` is the exception at an entry without mid. */
    static method UpdateEntry(es: seq<Entry>, m: MediaTrack)
      returns (metaTracks: seq<Entry>, reported: bool)
      ensures metaTracks == UpdateOne(es, m)
      ensures reported <==> Reports(es, m)
    {
      metaTracks := es;
      reported := false;
      var found, i := false, 0;
      while i < |metaTracks|
        invariant 0 <= i <= |es| && metaTracks == es && !found && !reported
        invariant Find(es, m.mid, 0) == Find(es, m.mid, i)
      {
        if metaTracks[i].mid == None {
          return;
        }
        if metaTracks[i].mid.value == m.mid {
          if m.error != OK {
            reported := true;
            metaTracks := metaTracks[i := metaTracks[i].(error := Some(ErrorText(m.error)))];
          }
          found := true;
          break;
        }
        i := i + 1;
      }
      if !found {
        var metaTrack := Entry(Some(m.mid), m.trackId, None);
        if m.error != OK {
          metaTrack := metaTrack.(error := Some(ErrorText(m.error)));
        }
        metaTracks := metaTracks + [metaTrack];
      }
    }

    method UpdateMetaTracks()
      modifies this`metadata
      ensures metadata == UpdateMetadata(old(metadata), mediaTracks)
    {
      var hasError := false;
      ghost var md := metadata;
      for k := 0 to |mediaTracks|
        invariant metadata == md.(tracks := metadata.tracks)
        invariant md.tracks == None ==> metadata.tracks == None && !hasError
        invariant md.tracks.Some? ==>
                    && metadata.tracks == Some(UpdateAll(md.tracks.value, mediaTracks[..k]))
                    && (hasError <==> AnyReports(md.tracks.value, mediaTracks[..k]))
      {
        if metadata.tracks.Some? {
          var metaTracks, reported := UpdateEntry(metadata.tracks.value, mediaTracks[k]);
          assert mediaTracks[..k + 1][..k] == mediaTracks[..k];
          hasError := hasError || reported;
          metadata := metadata.(tracks := Some(metaTracks));
        }
      }
      assert mediaTracks[..|mediaTracks|] == mediaTracks;
      metadata := metadata.(status := Some(if hasError then "FAILED" else "OK"));
    }

    method SendLocal(description: Description)
      modifies this`metadata, this`outbox
      ensures var r := Negotiation.SendLocal(old(Value()), description);
              Value() == r.device && outbox == old(outbox) + r.sent
    {
      UpdateMetaTracks();
      outbox := outbox + [Message(description, metadata)];
    }

    method SendDescription(description: Description, choice: Choice)
      requires description.Answer? ==> pc.state == Stable
      modifies this`metadata, this`outbox, this`pc
      ensures var r := Negotiation.SendDescription(old(Value()), description, choice);
              Value() == r.device && outbox == old(outbox) + r.sent
    {
      SendLocal(description);
      if description.Answer? && choice.again {
        // Negotiation is needed again: a local offer, whose state change sends it in turn.
        var offer := Offer(choice.offer);
        pc := SetLocal(pc, offer).value;
        ghost var first := outbox;
        SendLocal(offer);
        ghost var r := Negotiation.SendDescription(old(Value()), description, choice);
        AppendAssociates(old(outbox), first[|old(outbox)|..], outbox[|first|..]);
        assert r.sent == first[|old(outbox)|..] + outbox[|first|..];
      }
    }

    method HandleSignalingMessage(m: Message, choice: Choice)
      modifies this
      ensures var r := Negotiation.HandleSignalingMessage(old(Value()), m, choice);
              Value() == r.device && outbox == old(outbox) + r.sent
    {
      AppendNothing(outbox);
      var offerCollision := m.description.Offer? && (makingOffer || pc.state != Stable);
      ignoreOffer := !polite && offerCollision;
      if ignoreOffer {
        return;
      }
      SetMetadata(m.metadata);
      var remote := SetRemote(pc, m.description);
      if remote == None {
        return;
      }
      pc := remote.value;
      if m.description.Offer? {
        var answer := Answer(choice.answer);
        pc := SetLocal(pc, answer).value;
        SendDescription(answer, choice);
      }
    }

    /** The loop of `CreateTracks` over the tracks. */
    method ListTracks(ms: seq<MediaTrack>)
      modifies this`metadata, this`mediaTracks
      ensures Value() == Negotiation.ListTracks(old(Value()), ms)
    {
      ghost var md := metadata;
      for k := 0 to |ms|
        invariant metadata == if k == 0 then md else PushTracks(md, ms[..k])
        invariant mediaTracks == old(mediaTracks) + ms[..k]
      {
        var entries := if metadata.tracks.Some? then metadata.tracks.value else [];
        metadata := metadata.(tracks := Some(entries + [Entry(Some(ms[k].mid), ms[k].trackId, None)]));
        AppendAssociates(old(mediaTracks), ms[..k], [ms[k]]);
        mediaTracks := mediaTracks + [ms[k]];
        PushOneMore(md, ms, k);
      }
      assert ms[..|ms|] == ms;
    }

    /** `thrown` says that setting the local description has thrown an exception. */
    method CreateTracks(ms: seq<MediaTrack>, sdp: nat) returns (thrown: bool)
      modifies this
      ensures thrown <==> old(pc).state == HaveLocalOffer
      ensures var r := Negotiation.CreateTracks(old(Value()), ms, sdp);
              Value() == r.device && outbox == old(outbox) + r.sent
    {
      ListTracks(ms);
      AppendNothing(outbox);
      var description := LocalDescription(pc, sdp);
      var local := SetLocal(pc, description);
      if local == None {
        return true;
      }
      pc := local.value;
      if pc.state == HaveLocalOffer {
        SendLocal(description);
      }
      thrown := false;
    }
  }
}
