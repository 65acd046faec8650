/**
 * `NetworkWMService`, the service for Sony Network Walkmans. The player
 * has no groups of its own: the content list shows one group per
 * artist and album, built from the database's sorted view. Tracks are the
 * database abstraction's own objects, so a change to a cached track's
 * fields reaches the database even after the cache is dropped. The
 * database, the file system and the secure session are parameters or
 * outputs here: the model hands them what the service computes.
 */
module NetworkWM {
  import opened Common
  import opened Strings
  import opened Sorting
  import opened DiscModel
  import opened HiMDService

  type byte = bv8

  /** A track as the database abstraction holds it (`AbstractedTrack`). */
  datatype NwTrack = NwTrack(
    systemIndex: int,
    title: Option<string>,
    album: Option<string>,
    artist: Option<string>,
    genre: Option<string>,
    trackNumber: int,
    trackDuration: int,
    codecName: string,
    codecKBPS: int)

  /** `getTracksSortedArtistAlbum()`: artists, each with its albums, each with its tracks. */
  datatype AlbumEntry = AlbumEntry(name: string, contents: seq<NwTrack>)
  datatype ArtistEntry = ArtistEntry(name: string, contents: seq<AlbumEntry>)

  /** The free, total and used figures, computed in floating point from the file system. */
  datatype Space = Space(left: int, total: int, used: int)

  /** The service's cache: the database's tracks in list order, the album groups and the space. */
  datatype Cache = Cache(nwjsTracks: seq<NwTrack>, groups: seq<Group>, space: Space)

  // listContent

  /** One artist's albums, each paired with the artist's name. */
  function ArtistAlbums(artist: ArtistEntry): (r: seq<(string, AlbumEntry)>)
    ensures |r| == |artist.contents|
    ensures forall k :: 0 <= k < |r| ==> r[k] == (artist.name, artist.contents[k])
  {
    seq(|artist.contents|, k requires 0 <= k < |artist.contents| => (artist.name, artist.contents[k]))
  }

  /** Every album of the sorted view, in order. */
  function Albums(sorted: seq<ArtistEntry>): seq<(string, AlbumEntry)> {
    if sorted == [] then [] else Albums(sorted[..|sorted| - 1]) + ArtistAlbums(sorted[|sorted| - 1])
  }

  /** The tracks of the albums, in order: `nwjsTracks`. */
  function Flat(albums: seq<(string, AlbumEntry)>): seq<NwTrack> {
    if albums == [] then [] else Flat(albums[..|albums| - 1]) + albums[|albums| - 1].1.contents
  }

  /** A listed track; `index` is its position in the whole list. */
  function ListedTrack(t: NwTrack, index: int): Track {
    Track(index, t.title, Some(""), t.trackDuration, 2, Codec(t.codecName, t.codecKBPS), Unprotected, t.album, t.artist)
  }

  function ListedTracks(tracks: seq<NwTrack>, start: int): (r: seq<Track>)
    ensures |r| == |tracks|
    ensures forall k :: 0 <= k < |tracks| ==> r[k] == ListedTrack(tracks[k], start + k)
  {
    seq(|tracks|, k requires 0 <= k < |tracks| => ListedTrack(tracks[k], start + k))
  }

  /** `"artist - album"`. */
  function AlbumTitle(artist: string, album: string): string {
    artist + " - " + album
  }

  /** One group per album, starting at the running track count. */
  function ListedGroups(albums: seq<(string, AlbumEntry)>): seq<Group> {
    if albums == [] then []
    else
      var init := albums[..|albums| - 1];
      var last := albums[|albums| - 1];
      ListedGroups(init) + [Group(|Flat(init)|, Some(AlbumTitle(last.0, last.1.name)), None, ListedTracks(last.1.contents, |Flat(init)|))]
  }

  function BuiltCache(sorted: seq<ArtistEntry>, space: Space): Cache {
    var albums := Albums(sorted);
    Cache(Flat(albums), ListedGroups(albums), space)
  }

  /** The disc `listContent` shows: an empty ungrouped group first, then the album groups. */
  function CacheDisc(c: Cache): Disc {
    Disc(" ", "", true, false, c.space.used, c.space.left, c.space.total, |c.nwjsTracks|,
      [Group(0, None, None, [])] + c.groups)
  }

  lemma AlbumsStep(sorted: seq<ArtistEntry>, a: nat)
    requires a < |sorted|
    ensures Albums(sorted[..a + 1]) == Albums(sorted[..a]) + ArtistAlbums(sorted[a])
  {
    assert sorted[..a + 1][..a] == sorted[..a];
  }

  lemma ListedStep(albums: seq<(string, AlbumEntry)>, x: (string, AlbumEntry))
    ensures Flat(albums + [x]) == Flat(albums) + x.1.contents
    ensures ListedGroups(albums + [x]) == ListedGroups(albums) +
      [Group(|Flat(albums)|, Some(AlbumTitle(x.0, x.1.name)), None, ListedTracks(x.1.contents, |Flat(albums)|))]
  {
    assert (albums + [x])[..|albums|] == albums;
  }

  /** The group tracks, read in order, list the cached tracks, numbered from 0. */
  lemma {:induction false} ListedGroupsTracks(albums: seq<(string, AlbumEntry)>)
    ensures AllTracks(ListedGroups(albums)) == ListedTracks(Flat(albums), 0)
  {
    if albums != [] {
      var init := albums[..|albums| - 1];
      var last := albums[|albums| - 1];
      ListedGroupsTracks(init);
      assert albums == init + [last];
      ListedStep(init, last);
      var g := Group(|Flat(init)|, Some(AlbumTitle(last.0, last.1.name)), None, ListedTracks(last.1.contents, |Flat(init)|));
      AllTracksAppend(ListedGroups(init), g);
      assert ListedTracks(Flat(init), 0) + g.tracks == ListedTracks(Flat(init) + last.1.contents, 0);
    }
  }

  /** There is one group per album, titled with the artist and album names. */
  lemma {:induction false} ListedGroupsTitles(albums: seq<(string, AlbumEntry)>)
    ensures |ListedGroups(albums)| == |albums|
    ensures forall k :: 0 <= k < |albums| ==>
      ListedGroups(albums)[k].title == Some(AlbumTitle(albums[k].0, albums[k].1.name))
  {
    if albums != [] {
      ListedGroupsTitles(albums[..|albums| - 1]);
    }
  }

  /** What `listContent` shows: an empty ungrouped group at index 0, then one group per album. */
  lemma ListedDiscGroups(sorted: seq<ArtistEntry>, space: Space)
    ensures var d := CacheDisc(BuiltCache(sorted, space));
      var albums := Albums(sorted);
      && d.groups[0] == Group(0, None, None, [])
      && |d.groups| == |albums| + 1
      && (forall k :: 0 <= k < |albums| ==> d.groups[k + 1].title == Some(AlbumTitle(albums[k].0, albums[k].1.name)))
  {
    var albums := Albums(sorted);
    var gs := ListedGroups(albums);
    ListedGroupsTitles(albums);
    var d := CacheDisc(BuiltCache(sorted, space));
    assert d.groups == [Group(0, None, None, [])] + gs;
    forall k | 0 <= k < |albums|
      ensures d.groups[k + 1].title == Some(AlbumTitle(albums[k].0, albums[k].1.name))
    {
      assert d.groups[k + 1] == gs[k];
    }
  }

  /**
   * The shown tracks are numbered 0, 1, ... across the groups in list
   * order, and the track count is their number.
   */
  lemma ListedDiscNumbering(sorted: seq<ArtistEntry>, space: Space)
    ensures var d := CacheDisc(BuiltCache(sorted, space));
      && |AllTracks(d.groups)| == d.trackCount
      && (forall j :: 0 <= j < d.trackCount ==> AllTracks(d.groups)[j].index == j)
  {
    var albums := Albums(sorted);
    var d := CacheDisc(BuiltCache(sorted, space));
    var empty := Group(0, None, None, []);
    assert d.groups == [empty] + ListedGroups(albums);
    ListedGroupsTracks(albums);
    AllTracksCons(empty, ListedGroups(albums));
    assert AllTracks(d.groups) == ListedTracks(Flat(albums), 0);
  }

  /** The innermost loop of `listContent`: one album's tracks join the list and form a group. */
  method AddAlbum(nwjsTracks: seq<NwTrack>, groups: seq<Group>, artistName: string, album: AlbumEntry)
    returns (nwjsTracks': seq<NwTrack>, groups': seq<Group>)
    ensures nwjsTracks' == nwjsTracks + album.contents
    ensures groups' == groups + [Group(|nwjsTracks|, Some(AlbumTitle(artistName, album.name)), None,
      ListedTracks(album.contents, |nwjsTracks|))]
  {
    var i := |nwjsTracks|;
    var tracks: seq<Track> := [];
    nwjsTracks' := nwjsTracks;
    for k := 0 to |album.contents|
      invariant nwjsTracks' == nwjsTracks + album.contents[..k] && i == |nwjsTracks| + k
      invariant tracks == ListedTracks(album.contents[..k], |nwjsTracks|)
    {
      nwjsTracks' := nwjsTracks' + [album.contents[k]];
      tracks := tracks + [ListedTrack(album.contents[k], i)];
      i := i + 1;
    }
    assert album.contents[..|album.contents|] == album.contents;
    groups' := groups + [Group(|nwjsTracks|, Some(AlbumTitle(artistName, album.name)), None, tracks)];
  }

  lemma AlbumPrefixStep(before: seq<(string, AlbumEntry)>, artist: ArtistEntry, b: nat)
    requires b < |artist.contents|
    ensures before + ArtistAlbums(artist)[..b] + [(artist.name, artist.contents[b])] == before + ArtistAlbums(artist)[..b + 1]
  {
    var r := ArtistAlbums(artist);
    assert r[..b + 1] == r[..b] + [r[b]];
  }

  /** The nested loops of `listContent` that fill the cache. */
  method BuildCache(sorted: seq<ArtistEntry>, space: Space) returns (c: Cache)
    ensures c == BuiltCache(sorted, space)
  {
    var nwjsTracks: seq<NwTrack> := [];
    var groups: seq<Group> := [];
    for a := 0 to |sorted|
      invariant nwjsTracks == Flat(Albums(sorted[..a]))
      invariant groups == ListedGroups(Albums(sorted[..a]))
    {
      var artist := sorted[a];
      AlbumsStep(sorted, a);
      ghost var before := Albums(sorted[..a]);
      assert before + ArtistAlbums(artist)[..0] == before;
      for b := 0 to |artist.contents|
        invariant nwjsTracks == Flat(before + ArtistAlbums(artist)[..b])
        invariant groups == ListedGroups(before + ArtistAlbums(artist)[..b])
      {
        var album := artist.contents[b];
        AlbumPrefixStep(before, artist, b);
        ListedStep(before + ArtistAlbums(artist)[..b], (artist.name, album));
        nwjsTracks, groups := AddAlbum(nwjsTracks, groups, artist.name, album);
      }
      assert ArtistAlbums(artist)[..|artist.contents|] == ArtistAlbums(artist);
    }
    assert sorted[..|sorted|] == sorted;
    c := Cache(nwjsTracks, groups, space);
  }

  // moveTrack

  /** `nwjsTracks[i]?.album === t.album && nwjsTracks[i]?.artist === t.artist`; past either end both are `undefined`. */
  predicate InAlbumOf(tracks: seq<NwTrack>, i: int, t: NwTrack) {
    if 0 <= i < |tracks| then tracks[i].album == t.album && tracks[i].artist == t.artist
    else t.album.None? && t.artist.None?
  }

  /**
   * The run of neighbouring tracks around `src` that share its album and
   * artist. With neither an album nor an artist the scan would run past
   * the ends of the list without stopping, so that case is excluded.
   */
  method FindRun(tracks: seq<NwTrack>, src: int) returns (bottom: int, top: int)
    requires 0 <= src < |tracks|
    requires tracks[src].album.Some? || tracks[src].artist.Some?
    ensures 0 <= bottom <= src <= top < |tracks|
    ensures forall i :: bottom <= i <= top ==> InAlbumOf(tracks, i, tracks[src])
    ensures !InAlbumOf(tracks, bottom - 1, tracks[src]) && !InAlbumOf(tracks, top + 1, tracks[src])
  {
    var thisTrack := tracks[src];
    bottom, top := src, src;
    while InAlbumOf(tracks, bottom - 1, thisTrack)
      invariant 0 <= bottom <= src
      invariant forall i :: bottom <= i <= src ==> InAlbumOf(tracks, i, thisTrack)
      decreases bottom
    {
      bottom := bottom - 1;
    }
    while InAlbumOf(tracks, top + 1, thisTrack)
      invariant src <= top < |tracks|
      invariant forall i :: src <= i <= top ==> InAlbumOf(tracks, i, thisTrack)
      decreases |tracks| - top
    {
      top := top + 1;
    }
  }

  /** `Math.max(bottom, Math.min(top, dst))`. */
  function Clamp(dst: int, bottom: int, top: int): (r: int)
    requires bottom <= top
    ensures bottom <= r <= top
    ensures bottom <= dst <= top ==> r == dst
    ensures dst < bottom ==> r == bottom
    ensures dst > top ==> r == top
  {
    if dst < bottom then bottom else if dst > top then top else dst
  }

  /** `tracks.splice(dst, 0, ...tracks.splice(src, 1))`. */
  function Spliced<T>(s: seq<T>, src: nat, dst: nat): (r: seq<T>)
    requires src < |s| && dst < |s|
    ensures |r| == |s| && r[dst] == s[src]
  {
    var rest := RemoveAt(s, src);
    rest[..dst] + [s[src]] + rest[dst..]
  }

  /**
   * The moved element lands at `dst`, the others keep their relative
   * order, nothing is lost, and outside the span between `src` and `dst`
   * nothing moves.
   */
  lemma SplicedEffect<T>(s: seq<T>, src: nat, dst: nat)
    requires src < |s| && dst < |s|
    ensures RemoveAt(Spliced(s, src, dst), dst) == RemoveAt(s, src)
    ensures multiset(Spliced(s, src, dst)) == multiset(s)
    ensures forall i :: 0 <= i < |s| && ((i < src && i < dst) || (i > src && i > dst)) ==> Spliced(s, src, dst)[i] == s[i]
  {
    SplicedRemove(s, src, dst);
    SplicedBag(s, src, dst);
    SplicedOutside(s, src, dst);
  }

  lemma SplicedRemove<T>(s: seq<T>, src: nat, dst: nat)
    requires src < |s| && dst < |s|
    ensures RemoveAt(Spliced(s, src, dst), dst) == RemoveAt(s, src)
  {
    var rest := RemoveAt(s, src);
    var r := Spliced(s, src, dst);
    assert r[..dst] == rest[..dst] && r[dst + 1..] == rest[dst..];
    assert rest[..dst] + rest[dst..] == rest;
  }

  lemma SplicedBag<T>(s: seq<T>, src: nat, dst: nat)
    requires src < |s| && dst < |s|
    ensures multiset(Spliced(s, src, dst)) == multiset(s)
  {
    var r := Spliced(s, src, dst);
    SplicedRemove(s, src, dst);
    MultisetRemoveAt(r, dst);
    MultisetRemoveAt(s, src);
  }

  lemma SplicedOutside<T>(s: seq<T>, src: nat, dst: nat)
    requires src < |s| && dst < |s|
    ensures forall i :: 0 <= i < |s| && ((i < src && i < dst) || (i > src && i > dst)) ==> Spliced(s, src, dst)[i] == s[i]
  {
  }

  /**
   * The track numbers after `for (i = bottom; i < upto; i++) tracks[i].trackNumber = i - bottom`,
   * keyed by system index; a later write to the same track wins.
   */
  function Renumbered(numbers: map<int, int>, tracks: seq<NwTrack>, bottom: int, upto: int): map<int, int>
    requires 0 <= bottom <= upto <= |tracks|
    decreases upto - bottom
  {
    if upto == bottom then numbers
    else Renumbered(numbers, tracks, bottom, upto - 1)[tracks[upto - 1].systemIndex := upto - 1 - bottom]
  }

  predicate DistinctSystemIndexes(tracks: seq<NwTrack>) {
    forall i, j :: 0 <= i < j < |tracks| ==> tracks[i].systemIndex != tracks[j].systemIndex
  }

  /**
   * With one object per system index, each track of the run is numbered by
   * its place in the run, and every other track keeps its number.
   */
  lemma {:induction false} RenumberedEffect(numbers: map<int, int>, tracks: seq<NwTrack>, bottom: int, upto: int)
    requires 0 <= bottom <= upto <= |tracks| && DistinctSystemIndexes(tracks)
    ensures forall i :: bottom <= i < upto ==>
      tracks[i].systemIndex in Renumbered(numbers, tracks, bottom, upto) &&
      Renumbered(numbers, tracks, bottom, upto)[tracks[i].systemIndex] == i - bottom
    ensures forall s :: (forall i :: bottom <= i < upto ==> tracks[i].systemIndex != s) ==>
      (s in Renumbered(numbers, tracks, bottom, upto) <==> s in numbers) &&
      (s in numbers ==> Renumbered(numbers, tracks, bottom, upto)[s] == numbers[s])
    decreases upto - bottom
  {
    if upto > bottom {
      RenumberedEffect(numbers, tracks, bottom, upto - 1);
    }
  }

  // renameTrack, renameGroup and upload

  /** The metadata handed to the database's `renameTrack`. */
  datatype Metadata = Metadata(
    artist: string,
    album: string,
    genre: Option<string>,
    title: Option<string>,
    trackDuration: int,
    trackNumber: int)

  /** The tags handed to the database's `uploadTrack` and `uploadMP3Track`. */
  datatype UploadMetadata = UploadMetadata(artist: string, album: string, genre: string, title: string)

  /** `x ?? fallback`. */
  function OrElse(x: Option<string>, fallback: string): string {
    if x.Some? then x.value else fallback
  }

  /**
   * `renameTrack`'s metadata: the new title, or `Unknown Title` when the
   * fields carry none; album and artist are replaced only by non-empty
   * new values, and otherwise keep the track's own, or their defaults.
   */
  function RenamedMetadata(track: NwTrack, newTitle: TitleParameter): (m: Metadata)
    ensures m.title == Some(if newTitle.PlainTitle? then newTitle.text else OrElse(newTitle.title, "Unknown Title"))
    ensures newTitle.TitleFields? && Truthy(newTitle.album) ==> m.album == newTitle.album.value
    ensures !(newTitle.TitleFields? && Truthy(newTitle.album)) ==> m.album == OrElse(track.album, "Unknown Album")
    ensures newTitle.TitleFields? && Truthy(newTitle.artist) ==> m.artist == newTitle.artist.value
    ensures !(newTitle.TitleFields? && Truthy(newTitle.artist)) ==> m.artist == OrElse(track.artist, "Unknown Artist")
    ensures m.genre == Some("Genre") && m.trackDuration == -1 && m.trackNumber == track.trackNumber
  {
    var title := if newTitle.PlainTitle? then newTitle.text else OrElse(newTitle.title, "Unknown Title");
    var m := Metadata(OrElse(track.artist, "Unknown Artist"), OrElse(track.album, "Unknown Album"), Some("Genre"),
      Some(title), -1, track.trackNumber);
    if newTitle.PlainTitle? then m
    else
      var m := if Truthy(newTitle.album) then m.(album := newTitle.album.value) else m;
      if Truthy(newTitle.artist) then m.(artist := newTitle.artist.value) else m
  }

  /**
   * The guard `newTitle.length - newTitle.replace('-', '').length !== 1` as
   * written: `replace` with a string pattern removes only the first dash,
   * so the difference is 1 for any title with a dash.
   */
  predicate AsWrittenGroupTitleAccepted(newTitle: string) {
    |newTitle| - |RemoveFirst(newTitle, '-')| == 1
  }

  lemma AsWrittenAcceptsAnyDash(newTitle: string)
    ensures AsWrittenGroupTitleAccepted(newTitle) <==> '-' in newTitle
  {
  }

  /**
   * The guard as written lets a title with two dashes through, and the
   * split then has a third piece that `[artist, album]` drops.
   */
  lemma AsWrittenDropsText(newTitle: string)
    requires Occurrences(newTitle, '-') >= 2
    ensures AsWrittenGroupTitleAccepted(newTitle)
    ensures |SplitOn(newTitle, '-')| >= 3
  {
    OccurrencesPositive(newTitle, '-');
    SplitCount(newTitle, '-');
  }

  /** For instance `A-B-C` passes, and `C` is lost. */
  lemma AsWrittenCounterexample()
    ensures AsWrittenGroupTitleAccepted("A-B-C")
    ensures |SplitOn("A-B-C", '-')| == 3
  {
    var t := "A-B-C";
    assert Occurrences(t, '-') == 2;
    SplitCount(t, '-');
    AsWrittenDropsText(t);
  }

  /** The check the comment before it states: exactly one dash. */
  predicate GroupTitleAccepted(newTitle: string) {
    Occurrences(newTitle, '-') == 1
  }

  /** An accepted title splits into exactly two pieces, which join back to the title. */
  lemma GroupTitleSplitsInTwo(newTitle: string)
    requires GroupTitleAccepted(newTitle)
    ensures |SplitOn(newTitle, '-')| == 2
    ensures SplitOn(newTitle, '-')[0] + "-" + SplitOn(newTitle, '-')[1] == newTitle
  {
    SplitCount(newTitle, '-');
    JoinSplit(newTitle, '-');
    var p := SplitOn(newTitle, '-');
    assert JoinWith(p[1..], '-') == p[1];
  }

  /**
   * `[artist, album] = newTitle.split("-").map(e => e.trim())`; a title
   * without a dash would leave `album` undefined, but none gets this far.
   */
  function GroupNames(newTitle: string): (string, string) {
    var pieces := SplitOn(newTitle, '-');
    (Trim(pieces[0]), if |pieces| > 1 then Trim(pieces[1]) else "")
  }

  /** The metadata `renameGroup` writes for one track of the album. */
  function GroupMetadata(t: NwTrack, artist: string, album: string): Metadata {
    Metadata(artist, album, t.genre, t.title, t.trackDuration, t.trackNumber)
  }

  /**
   * The loop of `renameGroup`: from `groupIndex` on, every track that shares
   * the first one's album and artist is renamed, up to the first that does
   * not. When the first track has neither album nor artist and the run
   * reaches the end of the list, the missing track past it still matches,
   * and reading its `systemIndex` throws.
   */
  method RenameRun(tracks: seq<NwTrack>, groupIndex: int, artist: string, album: string)
    returns (sent: seq<(int, Metadata)>, end: int, thrown: bool)
    requires 0 <= groupIndex < |tracks|
    ensures groupIndex < end <= |tracks|
    ensures forall i :: groupIndex <= i < end ==> InAlbumOf(tracks, i, tracks[groupIndex])
    ensures thrown <==> InAlbumOf(tracks, end, tracks[groupIndex])
    ensures thrown ==> end == |tracks| && tracks[groupIndex].album.None? && tracks[groupIndex].artist.None?
    ensures |sent| == end - groupIndex
    ensures forall k :: 0 <= k < |sent| ==>
      sent[k] == (tracks[groupIndex + k].systemIndex, GroupMetadata(tracks[groupIndex + k], artist, album))
  {
    var first := tracks[groupIndex];
    sent := [];
    end := groupIndex;
    thrown := false;
    while InAlbumOf(tracks, end, first)
      invariant groupIndex <= end <= |tracks|
      invariant forall i :: groupIndex <= i < end ==> InAlbumOf(tracks, i, first)
      invariant |sent| == end - groupIndex
      invariant forall k :: 0 <= k < |sent| ==>
        sent[k] == (tracks[groupIndex + k].systemIndex, GroupMetadata(tracks[groupIndex + k], artist, album))
      decreases |tracks| - end
    {
      if end == |tracks| {
        thrown := true;
        break;
      }
      var current := tracks[end];
      sent := sent + [(current.systemIndex, GroupMetadata(current, artist, album))];
      end := end + 1;
    }
  }

  /** The tags of an upload; a plain-string title carries none, so all three default. */
  function UploadTags(title: TitleParameter): (m: UploadMetadata)
    ensures title.PlainTitle? ==> m.artist == "Unknown Artist" && m.album == "Unknown Album" && m.title == "Unknown Title"
    ensures title.TitleFields? ==>
      && m.artist == OrElse(title.artist, "Unknown Artist")
      && m.album == OrElse(title.album, "Unknown Album")
      && m.title == OrElse(title.title, "Unknown Title")
    ensures m.genre == "Genre"
  {
    if title.PlainTitle? then UploadMetadata("Unknown Artist", "Unknown Album", "Genre", "Unknown Title")
    else UploadMetadata(OrElse(title.artist, "Unknown Artist"), OrElse(title.album, "Unknown Album"), "Genre",
      OrElse(title.title, "Unknown Title"))
  }

  /** What an upload hands to the database: an MP3 file, or an ATRAC stream with its frame size. */
  datatype UploadRequest = Mp3Track(tags: UploadMetadata) | AtracTrack(tags: UploadMetadata, codec: string, frameSize: Option<int>)

  // download

  const ChunkSize: nat := 4096

  /** The progress reports of a download of `total` bytes: one per chunk, before the chunk is counted. */
  function DownloadReports(total: nat): (r: seq<(nat, nat)>)
    ensures |r| == (total + ChunkSize - 1) / ChunkSize
    ensures forall k :: 0 <= k < |r| ==> r[k] == (ChunkSize * k, total) && ChunkSize * k < total
  {
    seq((total + ChunkSize - 1) / ChunkSize, k requires 0 <= k => (ChunkSize * k, total))
  }

  /**
   * The read loop of `download`: `read(4096)` returns the next bytes of the
   * file, at most 4096 of them, and they are copied into the buffer at the
   * cursor.
   */
  method ReadChunks(file: seq<byte>) returns (buffer: array<byte>, progress: seq<(nat, nat)>)
    ensures fresh(buffer) && buffer[..] == file
    ensures progress == DownloadReports(|file|)
  {
    buffer := new byte[|file|];
    progress := [];
    var cursor := 0;
    while cursor < buffer.Length
      invariant 0 <= cursor <= buffer.Length == |file|
      invariant cursor % ChunkSize == 0 || cursor == |file|
      invariant buffer[..cursor] == file[..cursor]
      invariant progress == DownloadReports(|file|)[..(cursor + ChunkSize - 1) / ChunkSize]
      decreases buffer.Length - cursor
    {
      var chunk := file[cursor..if cursor + ChunkSize < |file| then cursor + ChunkSize else |file|];
      forall k | cursor <= k < cursor + |chunk| {
        buffer[k] := chunk[k - cursor];
      }
      progress := progress + [(cursor, buffer.Length)];
      cursor := cursor + if ChunkSize < buffer.Length - cursor then ChunkSize else buffer.Length - cursor;
    }
  }

  /**
   * `NetworkWMService`. `trackNumbers` are the track numbers the database
   * abstraction holds, by system index; `dirty` says whether the database
   * has changes not yet flushed; `session` whether an upload session is open.
   */
  class NetworkWMService {
    var cache: Option<Cache>
    var dirty: bool
    var session: bool
    var trackNumbers: map<int, int>

    constructor(trackNumbers: map<int, int>)
      ensures cache == None && !dirty && !session && this.trackNumbers == trackNumbers
    {
      cache := None;
      dirty := false;
      session := false;
      this.trackNumbers := trackNumbers;
    }

    /** The cache, or the one `listContent` would build now. */
    function Cached(sorted: seq<ArtistEntry>, space: Space): Cache
      reads this
    {
      if cache.Some? then cache.value else BuiltCache(sorted, space)
    }

    /** `listContent(dropCache)`: rebuilds the cache when there is none or a drop is asked for. */
    method ListContent(dropCache: bool, sorted: seq<ArtistEntry>, space: Space) returns (disc: Disc)
      modifies this
      ensures cache == Some(if dropCache then BuiltCache(sorted, space) else old(Cached(sorted, space)))
      ensures disc == CacheDisc(cache.value)
      ensures dirty == old(dirty) && session == old(session) && trackNumbers == old(trackNumbers)
    {
      if cache.None? || dropCache {
        var c := BuildCache(sorted, space);
        cache := Some(c);
      }
      disc := CacheDisc(cache.value);
    }

    /** `flush`: the database writes its updates; nothing is left to flush and the cache goes. */
    method Flush()
      modifies this
      ensures !dirty && cache == None && session == old(session) && trackNumbers == old(trackNumbers)
    {
      dirty := false;
      cache := None;
    }

    function CanBeFlushed(): (r: bool)
      reads this
      ensures r <==> dirty
    {
      dirty
    }

    /** The renumbering loop of `moveTrack`, writing through to the database's tracks. */
    method RenumberRun(moved: seq<NwTrack>, bottom: int, top: int)
      requires 0 <= bottom <= top < |moved|
      modifies this
      ensures trackNumbers == Renumbered(old(trackNumbers), moved, bottom, top + 1)
      ensures cache == old(cache) && dirty == old(dirty) && session == old(session)
    {
      for i := bottom to top + 1
        invariant trackNumbers == Renumbered(old(trackNumbers), moved, bottom, i)
        invariant cache == old(cache) && dirty == old(dirty) && session == old(session)
      {
        trackNumbers := trackNumbers[moved[i].systemIndex := i - bottom];
      }
    }

    /**
     * `moveTrack`: the destination is clamped to the album run around
     * `src`, the track is spliced there, and the run's tracks are numbered
     * by their new places. The reordered list itself is dropped with the
     * cache; the numbers stay on the database's tracks.
     */
    method MoveTrack(src: int, dst: int, sorted: seq<ArtistEntry>, space: Space) returns (ok: bool, bottom: int, top: int)
      requires var tracks := Cached(sorted, space).nwjsTracks;
        0 <= src < |tracks| ==> tracks[src].album.Some? || tracks[src].artist.Some?
      modifies this
      ensures var tracks := old(Cached(sorted, space)).nwjsTracks;
        && (ok <==> 0 <= src < |tracks|)
        && (ok ==>
          && 0 <= bottom <= src <= top < |tracks|
          && (forall i :: bottom <= i <= top ==> InAlbumOf(tracks, i, tracks[src]))
          && !InAlbumOf(tracks, bottom - 1, tracks[src]) && !InAlbumOf(tracks, top + 1, tracks[src])
          && trackNumbers == Renumbered(old(trackNumbers), Spliced(tracks, src, Clamp(dst, bottom, top)), bottom, top + 1)
          && cache == None && dirty)
        && (!ok ==> cache == Some(old(Cached(sorted, space))) && dirty == old(dirty) && trackNumbers == old(trackNumbers))
      ensures session == old(session)
    {
      ghost var original := Cached(sorted, space);
      if cache.None? {
        var _ := ListContent(false, sorted, space);
      }
      assert cache == Some(original);
      var tracks := cache.value.nwjsTracks;
      if !(0 <= src < |tracks|) {
        return false, 0, 0;
      }
      bottom, top := MoveInList(tracks, src, dst);
      ok := true;
    }

    /** The part of `moveTrack` after the list is read: find the run, splice, renumber, drop the cache. */
    method MoveInList(tracks: seq<NwTrack>, src: int, dst: int) returns (bottom: int, top: int)
      requires 0 <= src < |tracks|
      requires tracks[src].album.Some? || tracks[src].artist.Some?
      modifies this
      ensures 0 <= bottom <= src <= top < |tracks|
      ensures forall i :: bottom <= i <= top ==> InAlbumOf(tracks, i, tracks[src])
      ensures !InAlbumOf(tracks, bottom - 1, tracks[src]) && !InAlbumOf(tracks, top + 1, tracks[src])
      ensures trackNumbers == Renumbered(old(trackNumbers), Spliced(tracks, src, Clamp(dst, bottom, top)), bottom, top + 1)
      ensures cache == None && dirty && session == old(session)
    {
      bottom, top := FindRun(tracks, src);
      var to := Clamp(dst, bottom, top);
      var moved := Spliced(tracks, src, to);
      RenumberRun(moved, bottom, top);
      cache := None;
      dirty := true;
    }

    /**
     * `renameTrack`: the database renames the track at `index` of the
     * list, then everything is flushed. An index past the list throws
     * before anything is written.
     */
    method RenameTrack(index: int, newTitle: TitleParameter, sorted: seq<ArtistEntry>, space: Space)
      returns (r: Result<(int, Metadata)>)
      modifies this
      ensures var tracks := old(Cached(sorted, space)).nwjsTracks;
        && (r.Ok? <==> 0 <= index < |tracks|)
        && (r.Ok? ==> r.value == (tracks[index].systemIndex, RenamedMetadata(tracks[index], newTitle))
                      && cache == None && !dirty)
        && (r.Err? ==> cache == Some(old(Cached(sorted, space))) && dirty == old(dirty))
      ensures session == old(session) && trackNumbers == old(trackNumbers)
    {
      if cache.None? {
        var _ := ListContent(false, sorted, space);
      }
      var tracks := cache.value.nwjsTracks;
      if !(0 <= index < |tracks|) {
        return Err("Cannot read properties of undefined");
      }
      var track := tracks[index];
      r := Ok((track.systemIndex, RenamedMetadata(track, newTitle)));
      Flush();
    }

    /**
     * `renameGroup`, with its guard as written: a title with a dash is
     * accepted, and the first two dash-separated pieces name the artist and
     * the album; they are written to the track at `groupIndex` and to the
     * following tracks while they share its album and artist. A title
     * without a dash is refused with an alert. When the first track has no
     * album and no artist and the run reaches the end of the list, the loop
     * throws after the renames already sent: nothing is flushed and the
     * cache stays. `GroupTitleAccepted` is the guard the comment before it
     * intends.
     */
    method RenameGroup(groupIndex: int, newTitle: string, sorted: seq<ArtistEntry>, space: Space)
      returns (alerted: bool, thrown: bool, sent: seq<(int, Metadata)>, end: int)
      requires var tracks := Cached(sorted, space).nwjsTracks;
        AsWrittenGroupTitleAccepted(newTitle) ==> 0 <= groupIndex < |tracks|
      modifies this
      ensures var tracks := old(Cached(sorted, space)).nwjsTracks;
        && (alerted <==> !AsWrittenGroupTitleAccepted(newTitle))
        && (alerted <==> '-' !in newTitle)
        && (alerted ==> !thrown && sent == [] && cache == Some(old(Cached(sorted, space))) && dirty == old(dirty))
        && (!alerted ==>
          var first := tracks[groupIndex];
          var names := GroupNames(newTitle);
          && groupIndex < end <= |tracks|
          && (forall i :: groupIndex <= i < end ==> InAlbumOf(tracks, i, first))
          && (thrown <==> InAlbumOf(tracks, end, first))
          && (thrown ==> end == |tracks| && first.album.None? && first.artist.None?)
          && |sent| == end - groupIndex
          && (forall k :: 0 <= k < |sent| ==>
                sent[k] == (tracks[groupIndex + k].systemIndex, GroupMetadata(tracks[groupIndex + k], names.0, names.1)))
          && (thrown ==> cache == Some(old(Cached(sorted, space))) && dirty == old(dirty))
          && (!thrown ==> cache == None && !dirty))
      ensures session == old(session) && trackNumbers == old(trackNumbers)
    {
      if cache.None? {
        var _ := ListContent(false, sorted, space);
      }
      var tracks := cache.value.nwjsTracks;
      sent := [];
      end := groupIndex;
      thrown := false;
      AsWrittenAcceptsAnyDash(newTitle);
      if !AsWrittenGroupTitleAccepted(newTitle) {
        return true, false, sent, end;
      }
      var names := GroupNames(newTitle);
      sent, end, thrown := RenameRun(tracks, groupIndex, names.0, names.1);
      alerted := false;
      if thrown {
        return;
      }
      Flush();
    }

    /** `prepareUpload`: opens an upload session, refusing when one is open. */
    method PrepareUpload() returns (r: Option<string>)
      modifies this
      ensures r == (if old(session) then Some("Invalid state!") else None)
      ensures session && cache == old(cache) && dirty == old(dirty) && trackNumbers == old(trackNumbers)
    {
      if session {
        return Some("Invalid state!");
      }
      session := true;
      r := None;
    }

    /** `finalizeUpload`: ends the session; without one it throws first. */
    method FinalizeUpload() returns (ok: bool)
      modifies this
      ensures ok == old(session) && !session
      ensures cache == old(cache) && dirty == old(dirty) && trackNumbers == old(trackNumbers)
    {
      ok := session;
      session := false;
    }

    /**
     * `upload`: MP3 files go to the database as they are, ATRAC3 and
     * ATRAC3plus streams with their frame size; any other format is
     * refused before anything happens. Either way the cache is dropped.
     */
    method Upload(title: TitleParameter, format: Codec, tables: FrameSizes) returns (r: Result<UploadRequest>)
      modifies this
      ensures format.codec == "MP3" ==> r == Ok(Mp3Track(UploadTags(title)))
      ensures format.codec == "A3+" ==> r == Ok(AtracTrack(UploadTags(title), "A3+", Lookup(tables.atrac3plus, format.bitrate)))
      ensures format.codec == "AT3" ==> r == Ok(AtracTrack(UploadTags(title), "AT3", Lookup(tables.atrac3, format.bitrate)))
      ensures format.codec !in ["MP3", "A3+", "AT3"] ==> r == Err("Invalid format!")
      ensures cache == (if r.Ok? then None else old(cache))
      ensures dirty == old(dirty) && session == old(session) && trackNumbers == old(trackNumbers)
    {
      var tags := UploadTags(title);
      if format.codec == "MP3" {
        cache := None;
        return Ok(Mp3Track(tags));
      }
      var family := if format.codec == "A3+" then tables.atrac3plus else tables.atrac3;
      if format.codec != "A3+" && format.codec != "AT3" {
        return Err("Invalid format!");
      }
      r := Ok(AtracTrack(tags, format.codec, Lookup(family, format.bitrate)));
      cache := None;
    }

    /**
     * `download`: the file of the track at `index` is read in chunks of at
     * most 4096 bytes. `file` is what the file system opens, if anything.
     */
    method Download(index: int, file: Option<seq<byte>>, sorted: seq<ArtistEntry>, space: Space)
      returns (r: Result<array<byte>>, progress: seq<(nat, nat)>)
      modifies this
      ensures var tracks := old(Cached(sorted, space)).nwjsTracks;
        && (r.Ok? <==> 0 <= index < |tracks| && file.Some?)
        && (0 <= index < |tracks| && file.None? ==> r == Err("Cannot read audio file!"))
        && (r.Ok? ==> fresh(r.value) && r.value[..] == file.value && progress == DownloadReports(|file.value|))
        && (r.Err? ==> progress == [])
      ensures cache == Some(old(Cached(sorted, space)))
      ensures dirty == old(dirty) && session == old(session) && trackNumbers == old(trackNumbers)
    {
      progress := [];
      if cache.None? {
        var _ := ListContent(false, sorted, space);
      }
      var tracks := cache.value.nwjsTracks;
      if !(0 <= index < |tracks|) {
        return Err("Cannot read properties of undefined"), progress;
      }
      if file.None? {
        return Err("Cannot read audio file!"), progress;
      }
      var buffer;
      buffer, progress := ReadChunks(file.value);
      r := Ok(buffer);
    }

    /**
     * `deleteTracks`: each listed track is deleted from the database in the
     * order given, then everything is flushed. Without a cache, or at an
     * index past the list, it throws, after the deletions before it.
     */
    method DeleteTracks(indices: seq<int>) returns (ok: bool, deleted: seq<int>)
      modifies this
      ensures |deleted| <= |indices|
      ensures old(cache).Some? ==> forall k :: 0 <= k < |deleted| ==>
        0 <= indices[k] < |old(cache).value.nwjsTracks| && deleted[k] == old(cache).value.nwjsTracks[indices[k]].systemIndex
      ensures old(cache).None? ==> ok == (indices == []) && deleted == []
      ensures ok <==> |deleted| == |indices|
      ensures !ok ==> old(cache).None? || !(0 <= indices[|deleted|] < |old(cache).value.nwjsTracks|)
      ensures ok ==> cache == None && !dirty
      ensures !ok ==> cache == old(cache) && dirty == old(dirty)
      ensures session == old(session) && trackNumbers == old(trackNumbers)
    {
      deleted := [];
      for k := 0 to |indices|
        invariant |deleted| == k && cache == old(cache)
        invariant cache.Some? ==> forall j :: 0 <= j < k ==>
          0 <= indices[j] < |cache.value.nwjsTracks| && deleted[j] == cache.value.nwjsTracks[indices[j]].systemIndex
        invariant cache.None? ==> k == 0
      {
        if cache.None? || !(0 <= indices[k] < |cache.value.nwjsTracks|) {
          return false, deleted;
        }
        deleted := deleted + [cache.value.nwjsTracks[indices[k]].systemIndex];
      }
      Flush();
      ok := true;
    }
  }
}
