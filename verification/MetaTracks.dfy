/**
 The track list in the signaling metadata, and how a device brings it up to date with its media tracks
 before it sends a description.
 */
module MetaTracks {
  import opened Bytes

  datatype ErrorState = OK | ACCESS_DENIED | UNKNOWN_TRACK_ID | INVALID_CODECS | UNKNOWN_ERROR

  function ErrorText(e: ErrorState): string {
    match e
    case OK => "OK"
    case ACCESS_DENIED => "ACCESS_DENIED"
    case UNKNOWN_TRACK_ID => "UNKNOWN_TRACK_ID"
    case INVALID_CODECS => "INVALID_CODECS"
    case UNKNOWN_ERROR => "UNKNOWN_ERROR"
  }

  datatype MediaTrack = MediaTrack(mid: string, trackId: string, error: ErrorState)

  /** One entry of the list as the client wrote it; it may lack a mid. */
  datatype Entry = Entry(mid: Option<string>, trackId: string, error: Option<string>)

  /** `tracks` is `None` if the metadata has no track array. */
  datatype Metadata = Metadata(tracks: Option<seq<Entry>>, status: Option<string>, noTrickle: bool)

  // --- Specification ------------------------------------------------------------------------

  /** How looking for a mid ends: at an index, nowhere, or in an exception at an entry without a mid. */
  datatype Search = At(i: nat) | Nowhere | Broken

  function Find(es: seq<Entry>, mid: string, from: nat): (r: Search)
    requires from <= |es|
    ensures r.At? ==> from <= r.i < |es| && es[r.i].mid == Some(mid)
    decreases |es| - from
  {
    if from == |es| then Nowhere
    else if es[from].mid == None then Broken
    else if es[from].mid == Some(mid) then At(from)
    else Find(es, mid, from + 1)
  }

  function NewEntry(m: MediaTrack): Entry {
    Entry(Some(m.mid), m.trackId, if m.error == OK then None else Some(ErrorText(m.error)))
  }

  function UpdateOne(es: seq<Entry>, m: MediaTrack): (r: seq<Entry>)
    ensures |es| <= |r|
  {
    match Find(es, m.mid, 0)
    case At(i) => if m.error == OK then es else es[i := es[i].(error := Some(ErrorText(m.error)))]
    case Nowhere => es + [NewEntry(m)]
    case Broken => es
  }

  /** The error of a track counts only if its entry is found, not if it is added. */
  predicate Reports(es: seq<Entry>, m: MediaTrack) {
    m.error != OK && Find(es, m.mid, 0).At?
  }

  function UpdateAll(es: seq<Entry>, ms: seq<MediaTrack>): (r: seq<Entry>)
    ensures |es| <= |r|
    decreases |ms|
  {
    if ms == [] then es
    else UpdateOne(UpdateAll(es, ms[..|ms| - 1]), ms[|ms| - 1])
  }

  predicate AnyReports(es: seq<Entry>, ms: seq<MediaTrack>)
    decreases |ms|
  {
    ms != [] &&
      var front := ms[..|ms| - 1];
      AnyReports(es, front) || Reports(UpdateAll(es, front), ms[|ms| - 1])
  }

  function UpdateMetadata(md: Metadata, ms: seq<MediaTrack>): Metadata {
    match md.tracks
    case None => md.(status := Some("OK"))
    case Some(es) =>
      md.(tracks := Some(UpdateAll(es, ms)), status := Some(if AnyReports(es, ms) then "FAILED" else "OK"))
  }

  // --- What the list becomes ----------------------------------------------------------------

  ghost predicate AllMids(es: seq<Entry>) {
    forall i :: 0 <= i < |es| ==> es[i].mid.Some?
  }

  /** An entry of this mid is found: none before it lacks a mid. */
  ghost predicate Reached(es: seq<Entry>, mid: string) {
    exists i :: 0 <= i < |es| && es[i].mid == Some(mid) && AllMids(es[..i])
  }

  ghost predicate HasMid(ms: seq<MediaTrack>, mid: string) {
    exists j :: 0 <= j < |ms| && ms[j].mid == mid
  }

  /** The tracks that get an entry: of a mid that is not listed yet, if every entry listed has one. */
  ghost function Unlisted(es: seq<Entry>, ms: seq<MediaTrack>): seq<MediaTrack>
    decreases |ms|
  {
    if ms == [] || !AllMids(es) then []
    else
      var front, m := ms[..|ms| - 1], ms[|ms| - 1];
      Unlisted(es, front) + if Reached(es, m.mid) || HasMid(front, m.mid) then [] else [m]
  }

  ghost function Bare(m: MediaTrack): Entry {
    Entry(Some(m.mid), m.trackId, None)
  }

  /** The entries there will be, errors apart. */
  ghost function Listing(es: seq<Entry>, ms: seq<MediaTrack>): (r: seq<Entry>)
    ensures |r| == |es| + |Unlisted(es, ms)|
  {
    es + seq(|Unlisted(es, ms)|, k requires 0 <= k < |Unlisted(es, ms)| => Bare(Unlisted(es, ms)[k]))
  }

  /** The error of the last track in error of a mid. */
  function LastError(ms: seq<MediaTrack>, mid: string): Option<ErrorState>
    decreases |ms|
  {
    if ms == [] then None
    else
      var m := ms[|ms| - 1];
      if m.mid == mid && m.error != OK then Some(m.error) else LastError(ms[..|ms| - 1], mid)
  }

  /** The first entry of a mid, if it is found, tells the last error of that mid; other errors stay. */
  ghost function ErrorAt(listing: seq<Entry>, ms: seq<MediaTrack>, i: nat): Option<string>
    requires i < |listing|
  {
    match listing[i].mid
    case None => listing[i].error
    case Some(mid) =>
      if Find(listing, mid, 0) == At(i) && LastError(ms, mid).Some? then Some(ErrorText(LastError(ms, mid).value))
      else listing[i].error
  }

  ghost predicate Updated(r: seq<Entry>, es: seq<Entry>, ms: seq<MediaTrack>) {
    var listing := Listing(es, ms);
    |r| == |listing| && forall i :: 0 <= i < |r| ==> r[i] == listing[i].(error := ErrorAt(listing, ms, i))
  }

  // --- Finding ------------------------------------------------------------------------------

  lemma {:induction false} FindIsFirst(es: seq<Entry>, mid: string, from: nat)
    requires from <= |es|
    ensures var r := Find(es, mid, from);
            match r
            case At(i) => forall j :: from <= j < i ==> es[j].mid.Some? && es[j].mid != Some(mid)
            case Nowhere => forall j :: from <= j < |es| ==> es[j].mid.Some? && es[j].mid != Some(mid)
            case Broken => exists b :: from <= b < |es| && es[b].mid == None
                             && forall j :: from <= j < b ==> es[j].mid != Some(mid)
    decreases |es| - from
  {
    if from < |es| && es[from].mid.Some? && es[from].mid != Some(mid) {
      FindIsFirst(es, mid, from + 1);
    }
  }

  lemma FindReaches(es: seq<Entry>, mid: string)
    ensures Find(es, mid, 0).At? <==> Reached(es, mid)
    ensures Find(es, mid, 0).Nowhere? ==> AllMids(es)
    ensures Find(es, mid, 0).Broken? ==> !AllMids(es)
  {
    FindIsFirst(es, mid, 0);
    match Find(es, mid, 0)
    case At(i) => assert es[i].mid == Some(mid) && AllMids(es[..i]);
    case Nowhere =>
    case Broken =>
      var b :| 0 <= b < |es| && es[b].mid == None && forall j :: 0 <= j < b ==> es[j].mid != Some(mid);
      forall i | 0 <= i < |es| && es[i].mid == Some(mid) ensures !AllMids(es[..i]) {
        assert es[..i][b].mid == None;
      }
  }

  /** Looking for a mid depends on the mids only. */
  lemma {:induction false} FindSame(es: seq<Entry>, r: seq<Entry>, mid: string, from: nat)
    requires |r| == |es| && forall i :: 0 <= i < |es| ==> r[i].mid == es[i].mid
    requires from <= |es|
    ensures Find(r, mid, from) == Find(es, mid, from)
    decreases |es| - from
  {
    if from < |es| {
      FindSame(es, r, mid, from + 1);
    }
  }

  lemma {:induction false} FindStays(es: seq<Entry>, e: Entry, mid: string, from: nat)
    requires from <= |es| && e.mid.Some?
    ensures Find(es + [e], mid, from)
         == if !Find(es, mid, from).Nowhere? then Find(es, mid, from)
            else if e.mid == Some(mid) then At(|es|) else Nowhere
    decreases |es| - from
  {
    if from < |es| {
      FindStays(es, e, mid, from + 1);
    } else {
      assert (es + [e])[|es|] == e;
    }
  }

  // --- One track more -----------------------------------------------------------------------

  lemma HasMidStep(ms: seq<MediaTrack>, m: MediaTrack, mid: string)
    ensures HasMid(ms + [m], mid) <==> HasMid(ms, mid) || m.mid == mid
  {
    var all := ms + [m];
    assert all[|ms|] == m && forall j :: 0 <= j < |ms| ==> all[j] == ms[j];
  }

  /** The mids of the tracks are those found in the list and those of the tracks that get an entry. */
  lemma {:induction false} UnlistedMids(es: seq<Entry>, ms: seq<MediaTrack>, mid: string)
    ensures HasMid(Unlisted(es, ms), mid) ==> HasMid(ms, mid)
    ensures AllMids(es) && HasMid(ms, mid) ==> Reached(es, mid) || HasMid(Unlisted(es, ms), mid)
    decreases |ms|
  {
    if ms != [] && AllMids(es) {
      var front, m := ms[..|ms| - 1], ms[|ms| - 1];
      assert ms == front + [m];
      UnlistedMids(es, front, mid);
      HasMidStep(front, m, mid);
      HasMidStep(Unlisted(es, front), m, mid);
      AppendNothing(Unlisted(es, front));
    }
  }

  lemma ReachedBefore(es: seq<Entry>, ms: seq<MediaTrack>, mid: string)
    requires Reached(es, mid)
    ensures Reached(Listing(es, ms), mid)
  {
    var listing := Listing(es, ms);
    var i :| 0 <= i < |es| && es[i].mid == Some(mid) && AllMids(es[..i]);
    assert listing[i] == es[i] && listing[..i] == es[..i];
  }

  lemma ReachedAdded(es: seq<Entry>, ms: seq<MediaTrack>, mid: string)
    requires AllMids(es) && HasMid(Unlisted(es, ms), mid)
    ensures Reached(Listing(es, ms), mid)
  {
    var us, listing := Unlisted(es, ms), Listing(es, ms);
    var k :| 0 <= k < |us| && us[k].mid == mid;
    assert listing[|es| + k].mid == Some(mid) && AllMids(listing[..|es| + k]);
  }

  lemma ReachedOnly(es: seq<Entry>, ms: seq<MediaTrack>, mid: string)
    requires Reached(Listing(es, ms), mid)
    ensures Reached(es, mid) || (AllMids(es) && HasMid(Unlisted(es, ms), mid))
  {
    var us, listing, n := Unlisted(es, ms), Listing(es, ms), |es|;
    var i :| 0 <= i < |listing| && listing[i].mid == Some(mid) && AllMids(listing[..i]);
    if i < n {
      assert es[i] == listing[i] && listing[..i] == es[..i];
    } else {
      assert us[i - n].mid == mid;
      assert forall k :: 0 <= k < n ==> es[k] == listing[..i][k];
    }
  }

  /** The mids listed are those that were found before and those of the tracks. */
  lemma ListingReaches(es: seq<Entry>, ms: seq<MediaTrack>, mid: string)
    ensures AllMids(Listing(es, ms)) <==> AllMids(es)
    ensures Reached(Listing(es, ms), mid) <==> Reached(es, mid) || (AllMids(es) && HasMid(ms, mid))
  {
    assert forall i :: 0 <= i < |es| ==> Listing(es, ms)[i] == es[i];
    UnlistedMids(es, ms, mid);
    if Reached(Listing(es, ms), mid) {
      ReachedOnly(es, ms, mid);
    } else if Reached(es, mid) {
      ReachedBefore(es, ms, mid);
    } else if AllMids(es) && HasMid(ms, mid) {
      ReachedAdded(es, ms, mid);
    }
  }

  lemma UnlistedStep(es: seq<Entry>, front: seq<MediaTrack>, m: MediaTrack)
    ensures Unlisted(es, front + [m])
         == Unlisted(es, front)
            + if AllMids(es) && !Reached(es, m.mid) && !HasMid(front, m.mid) then [m] else []
  {
    var ms := front + [m];
    assert ms[..|ms| - 1] == front;
    AppendNothing(Unlisted(es, front));
  }

  lemma ListingStep(es: seq<Entry>, front: seq<MediaTrack>, m: MediaTrack)
    ensures var listing := Listing(es, front);
            Listing(es, front + [m]) == listing + if Find(listing, m.mid, 0).Nowhere? then [Bare(m)] else []
  {
    var listing, us := Listing(es, front), Unlisted(es, front);
    UnlistedStep(es, front, m);
    FindReaches(listing, m.mid);
    ListingReaches(es, front, m.mid);
    if Find(listing, m.mid, 0).Nowhere? {
      assert Unlisted(es, front + [m]) == us + [m];
      var more := Listing(es, front + [m]);
      assert forall i :: 0 <= i < |listing| ==> more[i] == listing[i];
    } else {
      AppendNothing(us);
      AppendNothing(listing);
    }
  }

  lemma UpdatedFound(r: seq<Entry>, es: seq<Entry>, front: seq<MediaTrack>, m: MediaTrack)
    requires Updated(r, es, front) && !Find(Listing(es, front), m.mid, 0).Nowhere?
    ensures Updated(UpdateOne(r, m), es, front + [m])
  {
    var listing, r' := Listing(es, front), UpdateOne(r, m);
    ListingStep(es, front, m);
    AppendNothing(listing);
    FindSame(listing, r, m.mid, 0);
    forall i | 0 <= i < |r'| ensures r'[i] == listing[i].(error := ErrorAt(listing, front + [m], i)) {
      ErrorStep(listing, front, m, i);
    }
  }

  /** One track more changes the error told at most where its mid is found. */
  lemma ErrorStep(listing: seq<Entry>, front: seq<MediaTrack>, m: MediaTrack, i: nat)
    requires i < |listing|
    ensures ErrorAt(listing, front + [m], i)
         == if Find(listing, m.mid, 0) == At(i) && m.error != OK then Some(ErrorText(m.error))
            else ErrorAt(listing, front, i)
  {
    assert (front + [m])[..|front|] == front;
  }

  /** An entry added for a new mid leaves the errors of the others alone. */
  lemma {:induction false} ErrorKept(listing: seq<Entry>, front: seq<MediaTrack>, m: MediaTrack, i: nat)
    requires i < |listing| && Find(listing, m.mid, 0).Nowhere?
    ensures ErrorAt(listing + [Bare(m)], front + [m], i) == ErrorAt(listing, front, i)
  {
    assert (front + [m])[..|front|] == front;
    FindIsFirst(listing, m.mid, 0);
    FindStays(listing, Bare(m), listing[i].mid.value, 0);
  }

  lemma {:induction false} ErrorAdded(listing: seq<Entry>, front: seq<MediaTrack>, m: MediaTrack)
    requires Find(listing, m.mid, 0).Nowhere? && LastError(front, m.mid) == None
    ensures (listing + [Bare(m)])[|listing|].(error := ErrorAt(listing + [Bare(m)], front + [m], |listing|))
         == NewEntry(m)
  {
    assert (front + [m])[..|front|] == front;
    FindStays(listing, Bare(m), m.mid, 0);
  }

  lemma UpdatedAdded(r: seq<Entry>, es: seq<Entry>, front: seq<MediaTrack>, m: MediaTrack)
    requires Updated(r, es, front) && Find(Listing(es, front), m.mid, 0).Nowhere?
    ensures Updated(UpdateOne(r, m), es, front + [m])
  {
    var listing := Listing(es, front);
    var all, r' := listing + [Bare(m)], UpdateOne(r, m);
    ListingStep(es, front, m);
    FindSame(listing, r, m.mid, 0);
    NoError(es, front, m.mid);
    forall i | 0 <= i < |r'| ensures r'[i] == all[i].(error := ErrorAt(all, front + [m], i)) {
      if i < |r| {
        ErrorKept(listing, front, m, i);
      } else {
        ErrorAdded(listing, front, m);
      }
    }
  }

  lemma {:induction false} ErrorHasTrack(ms: seq<MediaTrack>, mid: string)
    requires LastError(ms, mid).Some?
    ensures HasMid(ms, mid)
    decreases |ms|
  {
    var n := |ms| - 1;
    if ms[n].mid != mid || ms[n].error == OK {
      ErrorHasTrack(ms[..n], mid);
      var j :| 0 <= j < n && ms[..n][j].mid == mid;
      assert ms[j].mid == mid;
    }
  }

  lemma NoError(es: seq<Entry>, ms: seq<MediaTrack>, mid: string)
    requires Find(Listing(es, ms), mid, 0).Nowhere?
    ensures LastError(ms, mid) == None
  {
    FindReaches(Listing(es, ms), mid);
    ListingReaches(es, ms, mid);
    if LastError(ms, mid).Some? {
      ErrorHasTrack(ms, mid);
    }
  }

  // --- One call -----------------------------------------------------------------------------

  /**
   One call, on any list, even one with an entry that lacks a mid: the entries listed before keep their
   places, mids and identifiers; after them comes one entry for each mid that is not listed, in the order
   of the tracks and with the identifier of the first; the first entry of each mid that can be found tells
   the last error of its tracks, and no other error changes.
   */
  lemma {:induction false} UpdateEffect(es: seq<Entry>, ms: seq<MediaTrack>)
    ensures Updated(UpdateAll(es, ms), es, ms)
    decreases |ms|
  {
    if ms == [] {
      AppendNothing(es);
    } else {
      var front, m := ms[..|ms| - 1], ms[|ms| - 1];
      assert ms == front + [m];
      UpdateEffect(es, front);
      if Find(Listing(es, front), m.mid, 0).Nowhere? {
        UpdatedAdded(UpdateAll(es, front), es, front, m);
      } else {
        UpdatedFound(UpdateAll(es, front), es, front, m);
      }
    }
  }

  /** Track `k` is in error, and its mid is found in the list or is that of an earlier track. */
  ghost predicate KnownError(es: seq<Entry>, ms: seq<MediaTrack>, k: nat)
    requires k < |ms|
  {
    ms[k].error != OK && (Reached(es, ms[k].mid) || (AllMids(es) && HasMid(ms[..k], ms[k].mid)))
  }

  lemma ReportsKnown(es: seq<Entry>, ms: seq<MediaTrack>)
    requires ms != []
    ensures var n := |ms| - 1; Reports(UpdateAll(es, ms[..n]), ms[n]) <==> KnownError(es, ms, n)
  {
    var n := |ms| - 1;
    var listing := Listing(es, ms[..n]);
    UpdateEffect(es, ms[..n]);
    FindSame(listing, UpdateAll(es, ms[..n]), ms[n].mid, 0);
    FindReaches(listing, ms[n].mid);
    ListingReaches(es, ms[..n], ms[n].mid);
  }

  lemma KnownInFront(es: seq<Entry>, ms: seq<MediaTrack>, k: nat)
    requires k < |ms| - 1
    ensures KnownError(es, ms[..|ms| - 1], k) <==> KnownError(es, ms, k)
  {
    assert ms[..|ms| - 1][..k] == ms[..k];
  }

  lemma {:induction false} ReportsIff(es: seq<Entry>, ms: seq<MediaTrack>)
    ensures AnyReports(es, ms) <==> exists k :: 0 <= k < |ms| && KnownError(es, ms, k)
    decreases |ms|
  {
    if ms != [] {
      var n := |ms| - 1;
      ReportsIff(es, ms[..n]);
      ReportsKnown(es, ms);
      forall k | 0 <= k < n ensures KnownError(es, ms[..n], k) <==> KnownError(es, ms, k) {
        KnownInFront(es, ms, k);
      }
    }
  }

  /**
   The first call misses an error exactly if no entry for the track was there before: its status is
   FAILED iff some track in error has a mid that the list had already or that an earlier track has.
   Without a list the status is OK whatever the tracks are in. Nothing but list and status changes.
   */
  lemma FirstCallStatus(md: Metadata, ms: seq<MediaTrack>)
    ensures var r := UpdateMetadata(md, ms);
            && r.noTrickle == md.noTrickle && (r.tracks.Some? <==> md.tracks.Some?)
            && (md.tracks == None ==> r.status == Some("OK"))
            && (md.tracks.Some? ==>
                  var es := md.tracks.value;
                  && Updated(r.tracks.value, es, ms)
                  && r.status == Some(if exists k :: 0 <= k < |ms| && KnownError(es, ms, k) then "FAILED" else "OK"))
  {
    if md.tracks.Some? {
      UpdateEffect(md.tracks.value, ms);
      ReportsIff(md.tracks.value, ms);
    }
  }

  // --- The second call ----------------------------------------------------------------------

  lemma {:induction false} NothingUnlisted(es: seq<Entry>, ms: seq<MediaTrack>)
    requires forall j :: 0 <= j < |ms| && AllMids(es) ==> Reached(es, ms[j].mid)
    ensures Unlisted(es, ms) == []
    decreases |ms|
  {
    if ms != [] && AllMids(es) {
      var front := ms[..|ms| - 1];
      assert Reached(es, ms[|ms| - 1].mid);
      forall j | 0 <= j < |front| ensures Reached(es, front[j].mid) {
        assert front[j] == ms[j];
      }
      NothingUnlisted(es, front);
    }
  }

  lemma ReachedSame(es: seq<Entry>, r: seq<Entry>, mid: string)
    requires |r| == |es| && forall i :: 0 <= i < |es| ==> r[i].mid == es[i].mid
    ensures Reached(r, mid) <==> Reached(es, mid)
    ensures AllMids(r) <==> AllMids(es)
  {
    FindSame(es, r, mid, 0);
    FindReaches(es, mid);
    FindReaches(r, mid);
  }

  /** After a call every mid is listed, unless an entry lacks one. */
  lemma NextListing(es: seq<Entry>, ms: seq<MediaTrack>)
    ensures var r := UpdateAll(es, ms);
            && Listing(r, ms) == r && (AllMids(r) <==> AllMids(es))
            && forall mid :: Reached(r, mid) <==> Reached(es, mid) || (AllMids(es) && HasMid(ms, mid))
  {
    var r, listing := UpdateAll(es, ms), Listing(es, ms);
    UpdateEffect(es, ms);
    forall mid ensures Reached(r, mid) <==> Reached(es, mid) || (AllMids(es) && HasMid(ms, mid)) {
      ReachedSame(listing, r, mid);
      ListingReaches(es, ms, mid);
    }
    ReachedSame(listing, r, "");
    ListingReaches(es, ms, "");
    forall j | 0 <= j < |ms| && AllMids(r) ensures Reached(r, ms[j].mid) {
      assert HasMid(ms, ms[j].mid);
    }
    NothingUnlisted(r, ms);
    AppendNothing(r);
  }

  /**
   A second call, with the media tracks in the same state, leaves the list as it is, and its status is
   FAILED iff some media track in error has an entry that can be found: any track in error, if no entry
   lacks a mid.
   */
  lemma SecondCall(md: Metadata, ms: seq<MediaTrack>)
    requires md.tracks.Some?
    ensures var es := md.tracks.value;
            var once := UpdateMetadata(md, ms);
            var twice := UpdateMetadata(once, ms);
            && twice.tracks == once.tracks
            && twice.status == Some(if exists m :: m in ms && m.error != OK && (AllMids(es) || Reached(es, m.mid))
                                    then "FAILED" else "OK")
  {
    var es := md.tracks.value;
    var r := UpdateAll(es, ms);
    NextListing(es, ms);
    SameErrors(es, ms);
    ReportsIff(r, ms);
    forall m | m in ms && m.error != OK && (AllMids(es) || Reached(es, m.mid))
      ensures exists k :: 0 <= k < |ms| && KnownError(r, ms, k)
    {
      var k :| 0 <= k < |ms| && ms[k] == m;
      assert HasMid(ms, m.mid);
      assert KnownError(r, ms, k);
    }
    if k :| 0 <= k < |ms| && KnownError(r, ms, k) {
      assert ms[k] in ms;
      assert AllMids(es) || Reached(es, ms[k].mid);
    }
  }

  lemma SameErrors(es: seq<Entry>, ms: seq<MediaTrack>)
    ensures UpdateAll(UpdateAll(es, ms), ms) == UpdateAll(es, ms)
  {
    var r, listing := UpdateAll(es, ms), Listing(es, ms);
    var r' := UpdateAll(r, ms);
    UpdateEffect(es, ms);
    UpdateEffect(r, ms);
    NextListing(es, ms);
    forall i | 0 <= i < |r| ensures r'[i] == r[i] {
      if r[i].mid.Some? {
        FindSame(listing, r, r[i].mid.value, 0);
      }
    }
  }

  /** The first call does report OK for a track in error, although the list tells its error. */
  lemma FirstCallMissesError(mid: string, trackId: string, error: ErrorState)
    requires error != OK
    ensures var md := Metadata(Some([]), None, false);
            var ms := [MediaTrack(mid, trackId, error)];
            var text := match error
                        case ACCESS_DENIED => "ACCESS_DENIED"
                        case UNKNOWN_TRACK_ID => "UNKNOWN_TRACK_ID"
                        case INVALID_CODECS => "INVALID_CODECS"
                        case _ => "UNKNOWN_ERROR";
            && UpdateMetadata(md, ms)
               == Metadata(Some([Entry(Some(mid), trackId, Some(text))]), Some("OK"), false)
            && UpdateMetadata(UpdateMetadata(md, ms), ms).status == Some("FAILED")
  {
    var md := Metadata(Some([]), None, false);
    var ms := [MediaTrack(mid, trackId, error)];
    assert ms[..0] == [] && UpdateAll([], ms) == [NewEntry(ms[0])];
    FirstCallStatus(md, ms);
    SecondCall(md, ms);
    assert ms[0] in ms;
  }
}
