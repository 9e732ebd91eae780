/** The signaling stream object, its handlers working in place, proved against `SignalingSpec`. */
module Signaling {
  import opened Bytes
  import opened Framing
  import Spec = SignalingSpec

  class SignalingStream {
    var accepted: bool
    var closed: bool
    var closing: bool
    var reading: bool
    var writeBuf: Option<seq<octet>>
    var writeBuffers: seq<message>
    var objectLength: nat
    var connected: bool
    var self: bool
    var deferredTracks: seq<Spec.track>
    ghost var world: Spec.World

    ghost function Value(): Spec.State
      reads this
    {
      Spec.State(accepted, closed, closing, reading, writeBuf, writeBuffers, objectLength, connected, self,
                 deferredTracks, world)
    }

    /** Construction followed by `start`. */
    constructor ()
      ensures Value() == Spec.STARTED
    {
      accepted, closed, closing, reading := false, false, false, false;
      writeBuf, writeBuffers, objectLength := None, [], 0;
      connected, self, deferredTracks := false, true, [];
      world := Spec.STARTED.world;
    }

    ghost method Issue(op: Spec.Operation)
      modifies this`world
      ensures world == old(world).(issued := old(world).issued + [op])
    {
      world := world.(issued := world.issued + [op]);
    }

    ghost method IssueRead(op: Spec.Operation, use: Spec.FutureUse)
      modifies this`world
      ensures world == old(world).(issued := old(world).issued + [op], future := use,
                                   clash := old(world).clash || old(world).future != Spec.Unused)
    {
      world := world.(issued := world.issued + [op], future := use,
                      clash := world.clash || world.future != Spec.Unused);
    }

    /** Stopping the connection closes its peer connection, which later reports that it has ended. */
    method Stop()
      modifies this`world
      ensures Value() == Spec.Stop(old(Value()))
    {
      if connected {
        world := world.(stops := world.stops + 1);
      }
    }

    method Cleanup()
      modifies this
      ensures Value() == Spec.Cleanup(old(Value()))
    {
      closed := true;
      Stop();
      connected := false;
      self := false;
    }

    method ReadObjLength()
      modifies this
      ensures Value() == Spec.ReadObjLength(old(Value()))
    {
      if closed {
        Cleanup();
        return;
      }
      reading := true;
      objectLength := 0;
      IssueRead(Spec.ReadLength, Spec.ReadingLength);
    }

    method ReadObject(length: nat)
      modifies this
      ensures Value() == Spec.ReadObj(old(Value()), length)
    {
      if closed {
        Cleanup();
        return;
      }
      reading := true;
      IssueRead(Spec.ReadObject(length), Spec.ReadingObject);
    }

    method CloseStream()
      modifies this
      ensures Value() == Spec.CloseStream(old(Value()))
    {
      if closed {
        if !closing && !reading && writeBuf == None {
          Cleanup();
        }
        return;
      }
      closed := true;
      closing := true;
      Stop();
      connected := false;
      assert Value() == Spec.Stop(old(Value())).(closed := true, closing := true, connected := false);
      Issue(Spec.Close);
    }

    method TryWriteStream()
      modifies this
      ensures Value() == Spec.TryWriteStream(old(Value()))
    {
      if closed {
        CloseStream();
        return;
      }
      if writeBuf != None {
        return;
      }
      if writeBuffers == [] {
        return;
      }
      var data := writeBuffers[0];
      writeBuffers := writeBuffers[1..];
      var size := |data| % UINT32_MODULUS;
      writeBuf := Some(Le32(size) + data[..size]);
      Issue(Spec.Write(writeBuf.value));
    }

    method SendSignalingObject(data: message)
      requires Sendable(data)
      modifies this
      ensures Value() == Spec.SendObject(old(Value()), data)
    {
      writeBuffers := writeBuffers + [data];
      world := world.(sent := world.sent + [data]);
      TryWriteStream();
    }

    /** `ok` says whether the connection creates the tracks without throwing an exception. */
    method CreateTracks(tracks: seq<Spec.track>, ok: bool) returns (success: bool)
      modifies this
      ensures Value() == Spec.CreateTracks(old(Value()), tracks, ok)
      ensures success <==> !old(connected) || ok
    {
      if connected {
        if ok {
          world := world.(created := world.created + tracks);
          return true;
        }
        world := world.(failed := true);
      } else {
        deferredTracks := deferredTracks + tracks;
        return true;
      }
      success := false;
    }

    method CreateWebrtcConnection(ok: bool)
      modifies this
      ensures Value() == Spec.CreateWebrtcConnection(old(Value()), ok)
    {
      connected := true;
      if deferredTracks != [] {
        var _ := CreateTracks(deferredTracks, ok);
        deferredTracks := [];
      }
    }

    /** The first length is read once the stream is accepted and the connection exists. */
    method StartReading()
      modifies this
      ensures Value() == Spec.StartReading(old(Value()))
    {
      world := world.(loops := world.loops + 1);
      ReadObjLength();
    }

    method StreamAccepted(ok: bool)
      modifies this
      ensures Value() == Spec.OnAccept(old(Value()), ok)
    {
      world := world.(future := Spec.Unused);
      if !ok {
        self := false;
        Stop();
        return;
      }
      accepted := true;
      if connected {
        StartReading();
      }
    }

    method IceServersResolved(tracksOk: bool)
      modifies this
      ensures Value() == Spec.OnIce(old(Value()), tracksOk)
    {
      world := world.(icePending := false);
      ghost var s := Value();
      assert s == old(Value()).(world := s.world);
      CreateWebrtcConnection(tracksOk);
      if accepted {
        StartReading();
      }
    }

    method HasReadObjLen(result: Spec.ReadResult)
      modifies this
      ensures Value() == Spec.OnLength(old(Value()), result)
    {
      reading := false;
      world := world.(future := Spec.Unused);
      assert Value() == Spec.ReadEnded(old(Value()));
      match result
      case Eof => CloseStream();
      case Failed => Cleanup();
      case Got(octets) =>
        if |octets| != 4 {
          ReadObjLength();
        } else {
          objectLength := FromLe32(octets);
          if objectLength < 1 {
            ReadObjLength();
          } else {
            ReadObject(objectLength);
          }
        }
    }

    /** `effects` are the calls that handling the object makes back to the stream. */
    method HasReadObject(result: Spec.ReadResult, effects: seq<Spec.Effect>)
      requires forall e :: e in effects && e.Reply? ==> Sendable(e.m)
      modifies this
      ensures Value() == Spec.OnObject(old(Value()), result, effects)
    {
      reading := false;
      world := world.(future := Spec.Unused);
      assert Value() == Spec.ReadEnded(old(Value()));
      match result
      case Eof => CloseStream();
      case Failed => Cleanup();
      case Got(octets) =>
        if |octets| < objectLength || !connected {
          ReadObjLength();
        } else {
          world := world.(inbox := world.inbox + [octets]);
          Perform(effects);
          ReadObjLength();
        }
    }

    method Perform(effects: seq<Spec.Effect>)
      requires forall e :: e in effects && e.Reply? ==> Sendable(e.m)
      modifies this
      ensures Value() == Spec.Perform(old(Value()), effects)
    {
      for k := 0 to |effects|
        invariant Spec.Perform(Value(), effects[k..]) == Spec.Perform(old(Value()), effects)
      {
        assert effects[k..][0] == effects[k] && effects[k..][1..] == effects[k + 1..];
        match effects[k]
        case Reply(m) => SendSignalingObject(m);
        case EndConnection => CloseStream();
      }
    }

    method StreamWriteCallback()
      modifies this
      ensures Value() == Spec.OnWrite(old(Value()))
    {
      writeBuf := None;
      world := world.(writesDone := world.writesDone + 1);
      assert Value() == old(Value()).(writeBuf := None, world := world);
      TryWriteStream();
    }

    method StreamClosed()
      modifies this
      ensures Value() == Spec.OnClosed(old(Value()))
    {
      closing := false;
      if !reading && writeBuf == None {
        Cleanup();
      }
    }
  }
}
