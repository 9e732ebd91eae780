/** Choosing one H.264 codec among the payload types of an offered media description. */
module CodecSelection {
  import opened Bytes

  datatype RtpMap = RtpMap(format: string, clockRate: int, fmtps: seq<string>)

  predicate OccursAt(s: string, t: string, i: int) {
    0 <= i <= |s| - |t| && s[i..i + |t|] == t
  }

  predicate Contains(s: string, t: string) {
    exists i | 0 <= i <= |s| :: OccursAt(s, t, i)
  }

  /** `t` stands somewhere in `s`. */
  ghost predicate Occurs(t: string, s: string) {
    exists before, after :: s == before + t + after
  }

  lemma ContainsIff(s: string, t: string)
    ensures Contains(s, t) <==> Occurs(t, s)
  {
    if Contains(s, t) {
      var i :| 0 <= i <= |s| && OccursAt(s, t, i);
      assert s == s[..i] + t + s[i + |t|..];
    }
    if Occurs(t, s) {
      var before, after :| s == before + t + after;
      assert OccursAt(s, t, |before|);
    }
  }

  /** The first line of parameters names those that the device streams with. */
  ghost predicate FullMatch(r: RtpMap) {
    && |r.fmtps| > 0
    && Occurs("profile-level-id=42e01f", r.fmtps[0])
    && Occurs("level-asymmetry-allowed=1", r.fmtps[0])
    && Occurs("packetization-mode=1", r.fmtps[0])
  }

  /** A media description: the payload types in order, and what is known about each. */
  datatype Media = Media(types: seq<int>, maps: map<int, RtpMap>) {

    /** Payload types are distinct, and every map is under a listed type; a type may lack a map. */
    ghost predicate Valid() {
      && (forall i, j :: 0 <= i < j < |types| ==> types[i] != types[j])
      && (forall pt :: pt in maps ==> pt in types)
    }

    /** The type at `i` is an H.264 candidate. */
    predicate Candidate(i: int) {
      0 <= i < |types| && types[i] in maps && maps[types[i]].format == "H264" && maps[types[i]].clockRate == 90000
    }

    ghost predicate Full(i: int) {
      Candidate(i) && FullMatch(maps[types[i]])
    }
  }

  ghost predicate AnyFull(m: Media, n: int) {
    exists j :: j < n && m.Full(j)
  }

  /** Among the first `n` types: the last full match if there is one, else the first candidate. */
  ghost predicate IsChoice(m: Media, n: int, i: int) {
    && 0 <= i < n && m.Candidate(i)
    && if AnyFull(m, n)
       then m.Full(i) && forall j :: i < j < n ==> !m.Full(j)
       else forall j :: 0 <= j < i ==> !m.Candidate(j)
  }

  ghost predicate NoCandidate(m: Media, n: nat) {
    forall j :: 0 <= j < n ==> !m.Candidate(j)
  }

  lemma AnyFullStep(m: Media, n: nat)
    ensures AnyFull(m, n + 1) <==> AnyFull(m, n) || m.Full(n)
  {
  }

  lemma NoneFull(m: Media, n: nat)
    requires NoCandidate(m, n)
    ensures !AnyFull(m, n)
  {
    assert forall j :: 0 <= j < n ==> !m.Full(j);
  }

  /** Before any candidate, the next type is the choice if it is one. */
  lemma FirstChoice(m: Media, n: nat)
    requires n < |m.types| && NoCandidate(m, n)
    ensures if m.Candidate(n) then IsChoice(m, n + 1, n) else NoCandidate(m, n + 1)
  {
    NoneFull(m, n);
    AnyFullStep(m, n);
  }

  /** A full match replaces the choice made before; no other type does. */
  lemma ChoiceStep(m: Media, n: nat, i: int)
    requires n < |m.types| && IsChoice(m, n, i)
    ensures IsChoice(m, n + 1, if m.Full(n) then n else i)
  {
    AnyFullStep(m, n);
  }

  /** There is one choice only, so that the result does not depend on how it is found. */
  lemma ChoiceUnique(m: Media, n: int, i: int)
    requires IsChoice(m, n, i)
    ensures forall j :: IsChoice(m, n, j) ==> j == i
  {
    forall j | IsChoice(m, n, j) ensures j == i {
      assert m.Full(i) <==> m.Full(j);
    }
  }

  /** An offer with a type of another codec, one for H.264 at another rate, and three for H.264. */
  function UsualOffer(line: string): Media {
    Media([96, 97, 98, 102, 108],
          map[96 := RtpMap("VP8", 90000, []), 97 := RtpMap("H264", 48000, []),
              98 := RtpMap("H264", 90000, ["packetization-mode=0"]), 102 := RtpMap("H264", 90000, [line]),
              108 := RtpMap("H264", 90000, [])])
  }

  /** The type with all three parameters is chosen; if one of them is missing the first candidate is. */
  lemma UsualChoice(line: string)
    ensures var full := Occurs("level-asymmetry-allowed=1", line) && Occurs("packetization-mode=1", line)
                        && Occurs("profile-level-id=42e01f", line);
            IsChoice(UsualOffer(line), 5, if full then 3 else 2)
  {
    var m := UsualOffer(line);
    TooShort("profile-level-id=42e01f", "packetization-mode=0");
    assert !m.Candidate(0) && !m.Candidate(1) && m.Candidate(2) && m.Candidate(3);
    assert !m.Full(2) && !m.Full(4);
    var full := Occurs("level-asymmetry-allowed=1", line) && Occurs("packetization-mode=1", line)
                && Occurs("profile-level-id=42e01f", line);
    assert m.Full(3) <==> full;
    assert AnyFull(m, 5) <==> full;
  }

  lemma TooShort(t: string, s: string)
    requires |s| < |t|
    ensures !Occurs(t, s)
  {
  }

  /** The payload type is listed at `k` or later. */
  predicate Ahead(m: Media, k: nat, pt: int) {
    exists j :: k <= j < |m.types| && m.types[j] == pt
  }

  lemma AheadStep(m: Media, k: nat)
    requires m.Valid() && k < |m.types|
    ensures Ahead(m, k, m.types[k]) && !Ahead(m, k + 1, m.types[k])
    ensures forall pt :: pt != m.types[k] ==> (Ahead(m, k, pt) <==> Ahead(m, k + 1, pt))
    ensures forall i :: 0 <= i < k ==> !Ahead(m, k, m.types[i])
  {
    assert m.types[k] == m.types[k];
  }

  /** What is left of the maps: the chosen one and those of types not looked at yet. */
  function Left(m: Media, k: nat, rtp: Option<int>): map<int, RtpMap>
    requires k <= |m.types|
  {
    map pt | pt in m.maps && (Ahead(m, k, pt) || rtp == Some(pt)) :: m.maps[pt]
  }

  /** The payload type chosen among the first `k`, if any. */
  ghost predicate Chosen(m: Media, k: nat, rtp: Option<int>) {
    if rtp == None then NoCandidate(m, k)
    else exists i :: IsChoice(m, k, i) && rtp.value == m.types[i]
  }

  lemma ChosenStep(m: Media, k: nat, rtp: Option<int>)
    requires k < |m.types| && Chosen(m, k, rtp)
    ensures (if rtp == None then m.Candidate(k) else m.Full(k)) ==> Chosen(m, k + 1, Some(m.types[k]))
    ensures !(if rtp == None then m.Candidate(k) else m.Full(k)) ==> Chosen(m, k + 1, rtp)
  {
    if rtp == None {
      FirstChoice(m, k);
    } else {
      var i :| IsChoice(m, k, i) && rtp.value == m.types[i];
      ChoiceStep(m, k, i);
    }
  }

  lemma LeftWithout(m: Media, k: nat, rtp: Option<int>)
    requires m.Valid() && k < |m.types| && rtp != Some(m.types[k])
    ensures Left(m, k + 1, rtp) == Left(m, k, rtp) - {m.types[k]}
  {
    AheadStep(m, k);
  }

  lemma LeftWith(m: Media, k: nat, rtp: Option<int>)
    requires m.Valid() && k < |m.types| && m.types[k] in m.maps
    requires rtp.Some? ==> !Ahead(m, k, rtp.value)
    ensures Left(m, k + 1, Some(m.types[k])) == Left(m, k, rtp) - if rtp.Some? then {rtp.value} else {}
  {
    AheadStep(m, k);
  }

  lemma LeftNow(m: Media, k: nat, rtp: Option<int>)
    requires m.Valid() && k < |m.types| && Chosen(m, k, rtp)
    ensures var pt, maps := m.types[k], Left(m, k, rtp);
            && rtp != Some(pt) && (rtp.Some? ==> !Ahead(m, k, rtp.value))
            && (pt in maps <==> pt in m.maps) && (pt in maps ==> maps[pt] == m.maps[pt])
  {
    AheadStep(m, k);
  }

  lemma LeftAtStart(m: Media)
    requires m.Valid()
    ensures Left(m, 0, None) == m.maps
  {
    assert forall pt :: pt in m.maps ==> Ahead(m, 0, pt);
  }

  lemma LeftAtEnd(m: Media, pt: int)
    requires pt in m.maps
    ensures Left(m, |m.types|, Some(pt)) == map[pt := m.maps[pt]]
  {
    assert forall x :: !Ahead(m, |m.types|, x);
  }

  class Track {
    var media: Media

    constructor (media: Media)
      ensures this.media == media
    {
      this.media := media;
    }

    static method HasParameters(fmtps: seq<string>) returns (full: bool)
      ensures forall r: RtpMap :: r.fmtps == fmtps ==> (full <==> FullMatch(r))
    {
      var profLvlId, lvlAsymAllowed, pktMode := "42e01f", "1", "1";
      assert "profile-level-id=" + profLvlId == "profile-level-id=42e01f";
      assert "level-asymmetry-allowed=" + lvlAsymAllowed == "level-asymmetry-allowed=1";
      assert "packetization-mode=" + pktMode == "packetization-mode=1";
      if |fmtps| > 0 {
        ContainsIff(fmtps[0], "profile-level-id=" + profLvlId);
        ContainsIff(fmtps[0], "level-asymmetry-allowed=" + lvlAsymAllowed);
        ContainsIff(fmtps[0], "packetization-mode=" + pktMode);
      }
      full :=
        && |fmtps| > 0
        && Contains(fmtps[0], "profile-level-id=" + profLvlId)
        && Contains(fmtps[0], "level-asymmetry-allowed=" + lvlAsymAllowed)
        && Contains(fmtps[0], "packetization-mode=" + pktMode);
    }

    /** One pass of the loop, for the type at `k`. */
    static method LookAt(m: Media, maps: map<int, RtpMap>, k: nat, rtp: Option<int>)
      returns (maps': map<int, RtpMap>, rtp': Option<int>)
      requires m.Valid() && k < |m.types| && Chosen(m, k, rtp) && maps == Left(m, k, rtp)
      ensures Chosen(m, k + 1, rtp') && maps' == Left(m, k + 1, rtp')
    {
      var pt := m.types[k];
      maps', rtp' := maps, rtp;
      LeftNow(m, k, rtp);
      LeftWithout(m, k, rtp);
      ChosenStep(m, k, rtp);
      if pt !in maps {
        return;
      }
      var r := maps[pt];
      if r.format == "H264" && r.clockRate == 90000 {
        var full := HasParameters(r.fmtps);
        if rtp.Some? && full {
          LeftWith(m, k, rtp);
          maps' := maps - {rtp.value};
          rtp' := Some(pt);
        } else if rtp.Some? {
          maps' := maps - {pt};
        } else {
          LeftWith(m, k, rtp);
          rtp' := Some(pt);
        }
      } else {
        maps' := maps - {pt};
      }
    }

    /**
     If any H.264 type is offered, exactly one payload type remains and is returned: the last full
     match if there is one, else the first candidate, and no other. If none is, the result is 0 and the
     description of the track stays as it was.
     */
    method Match() returns (result: int)
      requires media.Valid()
      modifies this
      ensures NoCandidate(old(media), |old(media).types|) ==> result == 0 && media == old(media)
      ensures !NoCandidate(old(media), |old(media).types|) ==>
                && (exists i :: IsChoice(old(media), |old(media).types|, i))
                && (forall i :: IsChoice(old(media), |old(media).types|, i) ==> result == old(media).types[i])
                && result in old(media).maps
                && media == old(media).(maps := map[result := old(media).maps[result]])
    {
      var m := media;
      var maps, rtp := m.maps, None;
      LeftAtStart(m);
      for k := 0 to |m.types|
        invariant media == m && Chosen(m, k, rtp) && maps == Left(m, k, rtp)
      {
        maps, rtp := LookAt(m, maps, k, rtp);
      }
      if rtp == None {
        return 0;
      }
      result := rtp.value;
      ghost var i :| IsChoice(m, |m.types|, i) && result == m.types[i];
      ChoiceUnique(m, |m.types|, i);
      LeftAtEnd(m, result);
      media := m.(maps := maps);
    }
  }
}
