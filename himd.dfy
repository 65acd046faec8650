/**
 * The HiMD services: the title-cell accounting of `HiMDSpec`, the content
 * cache the restricted service builds from what himd-js reports, the
 * upload state (`atdata`, the secure session) and the frame size chosen
 * for an upload. The himd-js calls themselves are out of reach; what they
 * report about the disc is a parameter (`HiMDImage`).
 */
module HiMDService {
  import opened Common
  import opened DiscModel
  import opened MinidiscSpecs
  import opened GroupEdits
  import opened GroupRecompute

  /** `HiMDSpec`: ATRAC3plus, ATRAC3, MP3 and PCM, defaulting to ATRAC3plus at 256 kbps. */
  function HiMDSpec(): Spec {
    Spec(
      [ RecordingCodec("A3+", 256, [352, 256, 192, 64, 48], None, None),
        RecordingCodec("AT3", 132, [132, 105, 66], None, None),
        RecordingCodec("MP3", 192, [320, 256, 192, 128, 96, 64], None, None),
        RecordingCodec("PCM", 1411, [1411], None, None)],
      (0, 1), "HiMD", Bytes)
  }

  lemma HiMDSpecDefaults()
    ensures ValidFormatIndex(HiMDSpec(), HiMDSpec().defaultFormat)
    ensures DefaultCodec(HiMDSpec()) == Codec("A3+", 256)
    ensures DefaultCodecName(HiMDSpec()) == "A3+"
  {
  }

  /** A HiMD disc has 0x1000 title cells of 14 characters each. */
  const AllCharacters: int := 0x1000 * 14

  /** The 14-character cells a title occupies. */
  function CellCount(x: string): (r: nat)
    ensures |x| <= 14 * r < |x| + 14
  {
    (|x| + 13) / 14
  }

  /** `t(x)`: the characters a title occupies, its length rounded up to whole cells. */
  function Cells(x: string): (r: nat)
    ensures r == 14 * CellCount(x)
    ensures |x| <= r < |x| + 14
  {
    ((|x| + 13) / 14) * 14
  }

  /** `if (x) amt += t(x)`: an absent or empty field takes no cell. */
  function FieldCells(x: Option<string>): (r: nat)
    ensures r == 0 <==> !Truthy(x)
  {
    if Truthy(x) then CellCount(x.value) else 0
  }

  function TrackCells(t: Track): nat {
    FieldCells(t.title) + FieldCells(t.album) + FieldCells(t.artist)
  }

  function TracksCells(tracks: seq<Track>): nat {
    if tracks == [] then 0 else TracksCells(tracks[..|tracks| - 1]) + TrackCells(tracks[|tracks| - 1])
  }

  function GroupCells(g: Group): nat {
    FieldCells(g.title) + TracksCells(g.tracks)
  }

  function GroupsCells(groups: seq<Group>): nat {
    if groups == [] then 0 else GroupsCells(groups[..|groups| - 1]) + GroupCells(groups[|groups| - 1])
  }

  /** The cells every title on the disc takes: group and track titles, albums, artists and the disc title. */
  function DiscCells(disc: Disc): nat {
    GroupsCells(disc.groups) + FieldCells(Some(disc.title))
  }

  /** `HiMDSpec.getRemainingCharactersForTitles`: the cells left, counted in characters. */
  method RemainingCharactersForTitles(disc: Disc) returns (halfWidth: int, fullWidth: int)
    ensures halfWidth == AllCharacters - 14 * DiscCells(disc)
    ensures fullWidth == 1
  {
    var amt := 0;
    for i := 0 to |disc.groups|
      invariant amt == 14 * GroupsCells(disc.groups[..i])
    {
      var group := disc.groups[i];
      assert disc.groups[..i + 1][..i] == disc.groups[..i];
      if Truthy(group.title) {
        amt := amt + Cells(group.title.value);
      }
      for j := 0 to |group.tracks|
        invariant amt == 14 * (GroupsCells(disc.groups[..i]) + FieldCells(group.title) + TracksCells(group.tracks[..j]))
      {
        var track := group.tracks[j];
        assert group.tracks[..j + 1][..j] == group.tracks[..j];
        if Truthy(track.title) { amt := amt + Cells(track.title.value); }
        if Truthy(track.album) { amt := amt + Cells(track.album.value); }
        if Truthy(track.artist) { amt := amt + Cells(track.artist.value); }
      }
      assert group.tracks[..|group.tracks|] == group.tracks;
    }
    assert disc.groups[..|disc.groups|] == disc.groups;
    if disc.title != "" {
      amt := amt + Cells(disc.title);
    }
    halfWidth := AllCharacters - amt;
    fullWidth := 1;
  }

  /** No title, album or artist anywhere on the disc. */
  predicate Untitled(disc: Disc) {
    && disc.title == ""
    && forall g :: g in disc.groups ==> UntitledGroup(g)
  }

  predicate UntitledGroup(g: Group) {
    && !Truthy(g.title)
    && forall t :: t in g.tracks ==> UntitledTrack(t)
  }

  predicate UntitledTrack(t: Track) {
    !Truthy(t.title) && !Truthy(t.album) && !Truthy(t.artist)
  }

  lemma {:induction false} TracksCellsFacts(tracks: seq<Track>)
    ensures TracksCells(tracks) == 0 <==> forall t :: t in tracks ==> UntitledTrack(t)
  {
    if tracks != [] {
      var init := tracks[..|tracks| - 1];
      var last := tracks[|tracks| - 1];
      TracksCellsFacts(init);
      assert TracksCells(tracks) == TracksCells(init) + TrackCells(last);
      assert TrackCells(last) == 0 <==> UntitledTrack(last);
      assert (forall t :: t in tracks ==> UntitledTrack(t)) <==>
        (forall t :: t in init ==> UntitledTrack(t)) && UntitledTrack(last)
      by {
        assert tracks == init + [last];
      }
    }
  }

  lemma {:induction false} GroupsCellsFacts(groups: seq<Group>)
    ensures GroupsCells(groups) == 0 <==> forall g :: g in groups ==> UntitledGroup(g)
  {
    if groups != [] {
      var init := groups[..|groups| - 1];
      var last := groups[|groups| - 1];
      GroupsCellsFacts(init);
      TracksCellsFacts(last.tracks);
      assert GroupsCells(groups) == GroupsCells(init) + GroupCells(last);
      assert GroupCells(last) == 0 <==> UntitledGroup(last);
      assert (forall g :: g in groups ==> UntitledGroup(g)) <==>
        (forall g :: g in init ==> UntitledGroup(g)) && UntitledGroup(last)
      by {
        assert groups == init + [last];
      }
    }
  }

  /**
   * The remaining count always falls on a cell boundary, and the disc has
   * every cell free exactly when nothing on it carries a title.
   */
  lemma RemainingCharactersFacts(disc: Disc)
    ensures AllCharacters - 14 * DiscCells(disc) == AllCharacters <==> Untitled(disc)
  {
    GroupsCellsFacts(disc.groups);
  }

  /** `HiMDSpec.getCharactersForTitle`: the cells one track's title, album and artist take. */
  function CharactersForTitle(t: Track): (r: (nat, nat))
    ensures r.0 % 14 == 0 && r.1 == 0
  {
    (14 * TrackCells(t), 0)
  }

  /** `x ?? ''` measured. */
  function RawLength(x: Option<string>): nat {
    if x.Some? then |x.value| else 0
  }

  /** `HiMDRestrictedService.getCharactersForTitle`: the raw lengths, with nothing rounded. */
  function RestrictedCharactersForTitle(t: Track): (r: (nat, nat))
    ensures r.1 == 0
  {
    (RawLength(t.album) + RawLength(t.artist) + RawLength(t.title), 0)
  }

  /** Rounding to cells never counts fewer characters, and at most 13 more per field. */
  lemma CharactersForTitleBounds(t: Track)
    ensures RestrictedCharactersForTitle(t).0 <= CharactersForTitle(t).0 < RestrictedCharactersForTitle(t).0 + 3 * 14
  {
  }

  /** `HiMDSpec.translateDefaultMeasuringModeTo`: a disc measured in bytes has no frame durations to translate. */
  function TranslateDefaultMeasuringModeTo(mode: Codec, duration: int): (r: Result<int>)
    ensures r.Err?
  {
    Err("Illegal in bytes-measuring mode!")
  }

  // The cache of the restricted service.

  /** What `statFilesystem` reports. */
  datatype FsStat = FsStat(left: int, total: int, used: int)

  /** A track as himd-js lists it. */
  datatype HiMDTrackInfo = HiMDTrackInfo(
    index: int,
    title: Option<string>,
    album: Option<string>,
    artist: Option<string>,
    encoding: string,
    bitrate: int,
    duration: int)

  /** A group as `getGroups` lists it; `groupIndex` is its slot in the group table. */
  datatype HiMDGroupInfo = HiMDGroupInfo(
    groupIndex: int,
    title: Option<string>,
    startIndex: int,
    tracks: seq<HiMDTrackInfo>)

  /** Everything himd-js reports about the disc that the cache is built from. */
  datatype HiMDImage = HiMDImage(
    stat: FsStat,
    discTitle: Option<string>,
    trackCount: int,
    groups: seq<HiMDGroupInfo>)

  /** Below one MiB of free space the disc is shown as full. */
  const NearlyFull: int := 1048576

  function ShownSpace(stat: FsStat): (r: FsStat)
    ensures r.used + r.left == stat.used + stat.left && r.total == stat.total
    ensures r.left == 0 || r.left >= NearlyFull
    ensures stat.left >= NearlyFull ==> r == stat
  {
    if stat.left < NearlyFull then FsStat(0, stat.total, stat.used + stat.left) else stat
  }

  /** `x ?? ''`. */
  function OrEmpty(x: Option<string>): string {
    if x.Some? then x.value else ""
  }

  function CachedTrack(t: HiMDTrackInfo): (r: Track)
    ensures r.index == t.index && r.channel == 2 && r.protectedFlag == Unprotected
    ensures r.title.Some? && r.album.Some? && r.artist.Some?
  {
    Track(t.index, Some(OrEmpty(t.title)), Some(""), t.duration, 2, Codec(t.encoding, t.bitrate),
      Unprotected, Some(OrEmpty(t.album)), Some(OrEmpty(t.artist)))
  }

  /**
   * The `i`-th group of the cache: an untitled group becomes the "ungrouped"
   * pseudo-group only in the first slot, elsewhere it gets an empty title.
   */
  function CachedGroup(g: HiMDGroupInfo, i: nat): (r: Group)
    ensures r.title.None? <==> i == 0 && g.title.None?
    ensures g.title.Some? ==> r.title == g.title
    ensures r.index == g.startIndex && |r.tracks| == |g.tracks|
    ensures forall k :: 0 <= k < |g.tracks| ==> r.tracks[k] == CachedTrack(g.tracks[k])
  {
    Group(g.startIndex, if g.title.Some? then g.title else if i == 0 then None else Some(""), Some(""),
      seq(|g.tracks|, k requires 0 <= k < |g.tracks| => CachedTrack(g.tracks[k])))
  }

  /** The disc `reloadCache` builds. */
  function CachedDisc(image: HiMDImage): (r: Disc)
    ensures |r.groups| == |image.groups|
    ensures forall i :: 0 <= i < |image.groups| ==> r.groups[i] == CachedGroup(image.groups[i], i)
  {
    var space := ShownSpace(image.stat);
    Disc(if Truthy(image.discTitle) then image.discTitle.value else "", "", false, true,
      space.used, space.left, space.total, image.trackCount,
      seq(|image.groups|, i requires 0 <= i < |image.groups| => CachedGroup(image.groups[i], i)))
  }

  /**
   * The cached disc is read-only, keeps the used-plus-free total, hides
   * less than a MiB of free space, and can have an ungrouped pseudo-group
   * only at the front.
   */
  lemma CachedDiscShape(image: HiMDImage)
    ensures var d := CachedDisc(image);
      && !d.writable && d.writeProtected
      && d.used + d.left == image.stat.used + image.stat.left && d.total == image.stat.total
      && (d.left == 0 || d.left >= NearlyFull)
      && d.trackCount == image.trackCount
      && (FirstUntitled(d.groups).Some? ==> FirstUntitled(d.groups) == Some(0))
  {
    var d := CachedDisc(image);
    if FirstUntitled(d.groups).Some? {
      var k := FirstUntitled(d.groups).value;
      assert d.groups[k] == CachedGroup(image.groups[k], k);
    }
  }

  /** `rewriteGroups`' argument to himd-js: each titled group's title and track indexes. */
  function ForwardedGroups(groups: seq<Group>): seq<(string, seq<int>)> {
    if groups == [] then []
    else
      var last := groups[|groups| - 1];
      ForwardedGroups(groups[..|groups| - 1]) +
        (if last.title.Some? then [(last.title.value, Indices(last.tracks))] else [])
  }

  /** Exactly the titled groups are forwarded, in disc order, each with its tracks' indexes in order. */
  lemma {:induction false} ForwardedGroupsAreTitled(groups: seq<Group>)
    ensures var f := ForwardedGroups(groups);
      var t := Titled(groups);
      && |f| == |t|
      && forall k :: 0 <= k < |t| ==> f[k] == (t[k].title.value, Indices(t[k].tracks))
  {
    if groups != [] {
      var init := groups[..|groups| - 1];
      ForwardedGroupsAreTitled(init);
      TitledStep(groups, |groups| - 1);
      assert groups[..|groups|] == groups;
    }
  }

  /** The first group `getGroups` lists that has a title and starts at the given track. */
  function FindTitledGroup(groups: seq<HiMDGroupInfo>, startIndex: int): (r: Option<nat>)
    ensures r.Some? ==> r.value < |groups| && groups[r.value].startIndex == startIndex && groups[r.value].title.Some?
    ensures r.Some? ==> forall k :: 0 <= k < r.value ==> !(groups[k].startIndex == startIndex && groups[k].title.Some?)
    ensures r.None? ==> forall k :: 0 <= k < |groups| ==> !(groups[k].startIndex == startIndex && groups[k].title.Some?)
  {
    if groups == [] then None
    else if groups[0].startIndex == startIndex && groups[0].title.Some? then Some(0)
    else
      match FindTitledGroup(groups[1..], startIndex)
      case None => None
      case Some(k) => Some(k + 1)
  }

  /** The frame size looked up for an ATRAC upload; `None` where the table has no entry. */
  datatype UploadPlan = Mp3Upload | StreamingUpload(frameSize: Option<int>)

  /** The frame size tables himd-js exports (`HiMDKBPSToFrameSize`), keyed by bitrate. */
  datatype FrameSizes = FrameSizes(atrac3plus: map<int, int>, atrac3: map<int, int>)

  function Lookup(table: map<int, int>, bitrate: int): Option<int> {
    if bitrate in table then Some(table[bitrate]) else None
  }

  /** `HiMDFullService.upload`: MP3 has its own path, the ATRAC codecs and PCM are streamed, anything else fails. */
  function UploadPlanFor(format: Codec, tables: FrameSizes): (r: Result<UploadPlan>)
    ensures r.Ok? <==> format.codec in ["MP3", "A3+", "AT3", "PCM"]
    ensures r.Ok? && r.value.Mp3Upload? <==> format.codec == "MP3"
    ensures format.codec == "PCM" ==> r == Ok(StreamingUpload(Some(0)))
    ensures r.Err? ==> r.message == "Invalid format"
  {
    if format.codec == "MP3" then Ok(Mp3Upload)
    else if format.codec == "A3+" then Ok(StreamingUpload(Lookup(tables.atrac3plus, format.bitrate)))
    else if format.codec == "AT3" then Ok(StreamingUpload(Lookup(tables.atrac3, format.bitrate)))
    else if format.codec == "PCM" then Ok(StreamingUpload(Some(0)))
    else Err("Invalid format")
  }

  /** Every format `HiMDSpec` offers can be uploaded. */
  lemma UploadAcceptsSpec(format: Codec, tables: FrameSizes)
    requires Offers(HiMDSpec(), format)
    ensures UploadPlanFor(format, tables).Ok?
  {
    var f :| f in HiMDSpec().availableFormats && f.codec == format.codec && format.bitrate in f.availableBitrates;
  }

  /** What `getDeviceStatus` reports. */
  datatype DeviceStatus = DeviceStatus(discPresent: bool, state: string, track: int, canBeFlushed: bool)

  /**
   * `HiMDRestrictedService` and `HiMDFullService`, told apart by `full`.
   * `atdata` says whether the audio file is open for writing, `session`
   * whether the full service holds an authenticated secure session.
   */
  class HiMD {
    const full: bool
    var cachedDisc: Option<Disc>
    var atdata: bool
    var session: bool

    constructor(full: bool)
      ensures this.full == full && cachedDisc == None && !atdata && !session
    {
      this.full := full;
      cachedDisc := None;
      atdata := false;
      session := false;
    }

    /** The disc `reloadCache` leaves in the cache. */
    function Content(image: HiMDImage): Disc
      reads this
    {
      if cachedDisc.Some? then cachedDisc.value else CachedDisc(image)
    }

    /** `reloadCache`: builds the cache only when there is none. */
    method ReloadCache(image: HiMDImage)
      modifies this
      ensures cachedDisc == Some(old(Content(image)))
      ensures atdata == old(atdata) && session == old(session)
    {
      if cachedDisc.None? {
        cachedDisc := Some(CachedDisc(image));
      }
    }

    method DropCachedContentList()
      modifies this
      ensures cachedDisc == None && atdata == old(atdata) && session == old(session)
    {
      cachedDisc := None;
    }

    /**
     * `listContent(dropCache)`: with unwritten changes a drop is refused
     * (the user is alerted and the stale cache served); otherwise a drop
     * rebuilds the cache from the disc.
     */
    method ListContent(dropCache: bool, dirty: bool, image: HiMDImage) returns (disc: Disc, alerted: bool)
      modifies this
      ensures alerted <==> dropCache && dirty
      ensures disc == (if dropCache && !dirty then CachedDisc(image) else old(Content(image)))
      ensures cachedDisc == Some(disc) && atdata == old(atdata) && session == old(session)
    {
      alerted := false;
      if dropCache && dirty {
        alerted := true;
        ReloadCache(image);
        disc := cachedDisc.value;
        return;
      }
      if dropCache {
        cachedDisc := None;
      }
      ReloadCache(image);
      disc := cachedDisc.value;
    }

    /** `rewriteGroups`: the titled groups go to himd-js and the cache is dropped. */
    method RewriteGroups(groups: seq<Group>) returns (sent: seq<(string, seq<int>)>)
      modifies this
      ensures sent == ForwardedGroups(groups)
      ensures cachedDisc == None && atdata == old(atdata) && session == old(session)
    {
      sent := ForwardedGroups(groups);
      DropCachedContentList();
    }

    /**
     * `deleteTracks`: the restricted service only alerts and changes
     * nothing; the full service erases the tracks, re-signs the disc and
     * drops the cache.
     */
    method DeleteTracks(indexes: seq<int>) returns (alerted: bool, erased: seq<int>)
      modifies this
      ensures alerted <==> !full
      ensures erased == (if full then indexes else [])
      ensures cachedDisc == (if full then None else old(cachedDisc))
      ensures atdata == old(atdata) && session == old(session)
    {
      if !full {
        return true, [];
      }
      erased := indexes;
      alerted := false;
      DropCachedContentList();
    }

    /**
     * `moveTrack`: when `updateGroups` is truthy the listed content is
     * regrouped around the move and the titled groups rewritten (which
     * drops the cache); then the move goes to himd-js and the cache is
     * dropped. An absent `updateGroups` is falsy here.
     */
    method MoveTrack(src: int, dst: int, updateGroups: Option<bool>, image: HiMDImage)
      returns (sentGroups: Option<seq<(string, seq<int>)>>, moved: (int, int))
      requires updateGroups == Some(true) ==> TitledNonEmpty(Content(image).groups)
      modifies this
      ensures sentGroups == (if updateGroups == Some(true)
        then Some(ForwardedGroups(Recomputed(old(Content(image)), src, dst).groups)) else None)
      ensures moved == (src, dst)
      ensures cachedDisc == None && atdata == old(atdata) && session == old(session)
    {
      sentGroups := None;
      if updateGroups == Some(true) {
        var content, _ := ListContent(false, false, image);
        var recomputed := RecomputeGroupsAfterTrackMove(content, src, dst);
        var sent := RewriteGroups(recomputed.groups);
        sentGroups := Some(sent);
      }
      moved := (src, dst);
      DropCachedContentList();
    }

    /**
     * `renameGroup` and `deleteGroup` name a group by its first track; the
     * slot of the first titled group starting there is what himd-js gets.
     * With no such group the lookup throws and the cache is kept.
     */
    method GroupSlot(image: HiMDImage, groupIndex: int) returns (r: Result<int>)
      modifies this
      ensures match FindTitledGroup(image.groups, groupIndex)
        case None => r.Err? && cachedDisc == old(cachedDisc)
        case Some(k) => r == Ok(image.groups[k].groupIndex) && cachedDisc == None
      ensures atdata == old(atdata) && session == old(session)
    {
      var found := FindTitledGroup(image.groups, groupIndex);
      if found.None? {
        return Err("no titled group starts at this track");
      }
      r := Ok(image.groups[found.value].groupIndex);
      DropCachedContentList();
    }

    /** `prepareUpload`: opens the audio file for writing, once. */
    method PrepareUpload() returns (r: Option<string>)
      modifies this
      ensures r == (if old(atdata) then Some("Already prepared") else None)
      ensures atdata && cachedDisc == old(cachedDisc) && session == old(session)
    {
      if atdata {
        return Some("Already prepared");
      }
      atdata := true;
      r := None;
    }

    /**
     * `finalizeUpload`: closes the audio file and drops the cache; the full
     * service also ends its session. Without an open file it throws first.
     */
    method FinalizeUpload() returns (ok: bool)
      modifies this
      ensures ok == old(atdata)
      ensures ok ==> !atdata && cachedDisc == None && session == (old(session) && !full)
      ensures !ok ==> atdata == old(atdata) && cachedDisc == old(cachedDisc) && session == old(session)
    {
      if !atdata {
        return false;
      }
      atdata := false;
      DropCachedContentList();
      if full {
        session := false;
      }
      ok := true;
    }

    /** `getDeviceStatus`: something can be flushed iff an upload is open or himd-js has unwritten changes. */
    function GetDeviceStatus(dirty: bool): (r: DeviceStatus)
      reads this
      ensures r.canBeFlushed <==> atdata || dirty
      ensures r.discPresent && r.state == "ready" && r.track == 0
    {
      DeviceStatus(true, "ready", 0, atdata || dirty)
    }

    function GetServiceCapabilities(): (r: seq<Capability>)
      ensures TrackUpload in r <==> full
      ensures ContentList in r && MetadataEdit in r && TrackDownload in r && HimdTitles in r
    {
      if full then [ContentList, MetadataEdit, TrackDownload, TrackUpload, HimdTitles]
      else [ContentList, MetadataEdit, TrackDownload, HimdTitles]
    }

    /**
     * `upload`: refused by the restricted service; the full service opens a
     * secure session for anything but MP3, before it checks the format.
     */
    method Upload(format: Codec, tables: FrameSizes) returns (r: Result<UploadPlan>)
      modifies this
      ensures r == (if full then UploadPlanFor(format, tables) else Err("Unavailable in restricted mode"))
      ensures session == (old(session) || (full && format.codec != "MP3"))
      ensures cachedDisc == old(cachedDisc) && atdata == old(atdata)
    {
      if !full {
        return Err("Unavailable in restricted mode");
      }
      if format.codec == "MP3" {
        return Ok(Mp3Upload);
      }
      session := true;
      if format.codec == "A3+" {
        r := Ok(StreamingUpload(Lookup(tables.atrac3plus, format.bitrate)));
      } else if format.codec == "AT3" {
        r := Ok(StreamingUpload(Lookup(tables.atrac3, format.bitrate)));
      } else if format.codec == "PCM" {
        r := Ok(StreamingUpload(Some(0)));
      } else {
        r := Err("Invalid format");
      }
    }
  }
}
