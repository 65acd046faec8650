/**
 * The Web MiniDisc data model: a disc holds groups, a group holds tracks.
 * A group whose title is `null` is the "ungrouped" pseudo-group.
 */
module DiscModel {
  import opened Common

  /** A codec family (`SPS`, `SPM`, `AT3`, `A3+`, `MP3`, `PCM`, ...) and a bitrate in kbps. */
  datatype Codec = Codec(codec: string, bitrate: int)

  datatype TrackFlag = Protected | Unprotected

  datatype Track = Track(
    index: int,
    title: Option<string>,
    fullWidthTitle: Option<string>,
    duration: int,
    channel: int,
    encoding: Codec,
    protectedFlag: TrackFlag,
    album: Option<string>,
    artist: Option<string>)

  datatype Group = Group(
    index: int,
    title: Option<string>,
    fullWidthTitle: Option<string>,
    tracks: seq<Track>)

  datatype Disc = Disc(
    title: string,
    fullWidthTitle: string,
    writable: bool,
    writeProtected: bool,
    used: int,
    left: int,
    total: int,
    trackCount: int,
    groups: seq<Group>)

  /** The sort key of `(a, b) => a.index - b.index`. */
  function TrackKey(t: Track): int { t.index }

  /** A new title: a plain string, or separate title, album and artist fields. */
  datatype TitleParameter =
    | PlainTitle(text: string)
    | TitleFields(title: Option<string>, album: Option<string>, artist: Option<string>)

  /** `groups.map(g => g.tracks).reduce((a, b) => a.concat(b), [])`. */
  function AllTracks(groups: seq<Group>): (r: seq<Track>)
    ensures groups == [] ==> r == []
  {
    if groups == [] then [] else AllTracks(groups[..|groups| - 1]) + groups[|groups| - 1].tracks
  }

  lemma AllTracksAppend(groups: seq<Group>, g: Group)
    ensures AllTracks(groups + [g]) == AllTracks(groups) + g.tracks
  {
    assert (groups + [g])[..|groups|] == groups;
  }

  lemma {:induction false} AllTracksConcat(a: seq<Group>, b: seq<Group>)
    ensures AllTracks(a + b) == AllTracks(a) + AllTracks(b)
    decreases |b|
  {
    if b != [] {
      var b' := b[..|b| - 1];
      assert a + b == (a + b') + [b[|b| - 1]];
      AllTracksAppend(a + b', b[|b| - 1]);
      AllTracksConcat(a, b');
      AllTracksAppend(b', b[|b| - 1]);
      assert b == b' + [b[|b| - 1]];
    } else {
      assert a + b == a;
    }
  }

  lemma AllTracksCons(g: Group, rest: seq<Group>)
    ensures AllTracks([g] + rest) == g.tracks + AllTracks(rest)
  {
    AllTracksConcat([g], rest);
    assert AllTracks([g]) == AllTracks([]) + g.tracks;
  }

  /** A track is listed exactly when some group holds it. */
  lemma {:induction false} AllTracksMembership(groups: seq<Group>, t: Track)
    ensures t in AllTracks(groups) <==> exists g :: g in groups && t in g.tracks
  {
    if groups != [] {
      var init := groups[..|groups| - 1];
      AllTracksMembership(init, t);
      assert groups == init + [groups[|groups| - 1]];
    }
  }

  /** The position of the first group whose title is `null`, as `find` sees it. */
  function FirstUntitled(groups: seq<Group>): (r: Option<nat>)
    ensures r.Some? ==>
      (r.value < |groups| && groups[r.value].title.None?
       && forall k :: 0 <= k < r.value ==> groups[k].title.Some?)
    ensures r.None? ==> forall k :: 0 <= k < |groups| ==> groups[k].title.Some?
  {
    if groups == [] then None
    else if groups[0].title.None? then Some(0)
    else
      match FirstUntitled(groups[1..])
      case None => None
      case Some(k) => Some(k + 1)
  }

  /** Every titled group has at least one track (`group.tracks[0]` is read for each). */
  predicate TitledNonEmpty(groups: seq<Group>) {
    forall g :: g in groups && g.title.Some? ==> |g.tracks| > 0
  }

  /** The groups with a title, in disc order. */
  function Titled(groups: seq<Group>): (r: seq<Group>)
    ensures forall g :: g in r <==> g in groups && g.title.Some?
  {
    if groups == [] then []
    else
      var init := groups[..|groups| - 1];
      assert groups == init + [groups[|groups| - 1]];
      Titled(init) + (if groups[|groups| - 1].title.Some? then [groups[|groups| - 1]] else [])
  }

  /**
   * Where the titled groups sit in the disc: strictly increasing positions
   * of titled groups that name every titled position.
   */
  function TitledPositions(groups: seq<Group>): (ps: seq<nat>)
    ensures forall k :: 0 <= k < |ps| ==> ps[k] < |groups| && groups[ps[k]].title.Some?
    ensures forall k, l :: 0 <= k < l < |ps| ==> ps[k] < ps[l]
    ensures forall i :: 0 <= i < |groups| && groups[i].title.Some? ==> i in ps
  {
    if groups == [] then []
    else
      var n := |groups| - 1;
      var init := groups[..n];
      var ps := TitledPositions(init);
      assert forall i :: 0 <= i < n ==> init[i] == groups[i];
      if groups[n].title.Some? then ps + [n] else ps
  }

  /** `Titled` is the order-preserving filter: its k-th group is the disc's group at the k-th titled position. */
  lemma {:induction false} TitledAtPositions(groups: seq<Group>)
    ensures |TitledPositions(groups)| == |Titled(groups)|
    ensures forall k :: 0 <= k < |Titled(groups)| ==> Titled(groups)[k] == groups[TitledPositions(groups)[k]]
  {
    if groups != [] {
      var n := |groups| - 1;
      var init := groups[..n];
      TitledAtPositions(init);
      var ps := TitledPositions(init);
      var t := Titled(init);
      forall k | 0 <= k < |t| ensures t[k] == groups[ps[k]] {
        assert init[ps[k]] == groups[ps[k]];
      }
    }
  }

  lemma TitledStep(groups: seq<Group>, i: nat)
    requires i < |groups|
    ensures Titled(groups[..i + 1]) == Titled(groups[..i]) + (if groups[i].title.Some? then [groups[i]] else [])
  {
    assert groups[..i + 1][..i] == groups[..i];
  }
}
