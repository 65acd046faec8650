/**
 * The NetMD service of the app (`NetMDUSBService`): it keeps the disc's
 * table of contents in `cachedContentList`, edits that cache in place and
 * sends the edited disc to the device in the library's units. Device
 * calls are parameters (`device`, the disc the library would list) and
 * results (`sent`, the disc handed to `rewriteDiscGroups`).
 */
module NetMDService {
  import opened Common
  import opened Sorting
  import opened DiscModel
  import opened MinidiscSpecs
  import opened GroupEdits
  import opened GroupRecompute

  /** The NetMD format an upload is sent in: the codec must be AT3, SPS or SPM. */
  function UploadFormat(c: Codec): Result<string> {
    if c.codec == "AT3" then Ok(if c.bitrate == 66 then "LP4" else "LP2")
    else if c.codec == "SPS" || c.codec == "SPM" then Ok("SP")
    else Err("Invalid format for NetMD upload")
  }

  /** The `WireformatDict` key of a library encoding. */
  function EncodingName(e: Encoding): string {
    match e
    case SP => "SP"
    case LP2 => "LP2"
    case LP4 => "LP4"
  }

  /**
   * Every codec the NetMD spec offers uploads in the format the library
   * conversion names for it, and only codec families other than AT3, SPS
   * and SPM are refused.
   */
  lemma UploadFormatAgreesWithSpec(c: Codec)
    ensures Offers(DefaultMinidiscSpec(), c) ==> UploadFormat(c) == Ok(EncodingName(CodecToEncoding(c)))
    ensures UploadFormat(c).Err? <==> c.codec != "AT3" && c.codec != "SPS" && c.codec != "SPM"
  {
    DefaultSpecOffers(c);
    CodecFamilies();
  }

  /** The cached disc after deleting `erased` one by one, in that order. */
  function DeletedAll(disc: Disc, erased: seq<int>): (r: Disc)
    requires TitledNonEmpty(disc.groups)
    ensures TitledNonEmpty(r.groups)
  {
    if erased == [] then disc
    else Recomputed(DeletedAll(disc, erased[..|erased| - 1]), erased[|erased| - 1], -1)
  }

  /** Deleting tracks touches only the groups: title, counts and flags of the disc stay. */
  lemma {:induction false} DeletedAllKeepsDisc(disc: Disc, erased: seq<int>)
    requires TitledNonEmpty(disc.groups)
    ensures DeletedAll(disc, erased) == disc.(groups := DeletedAll(disc, erased).groups)
  {
    if erased != [] {
      DeletedAllKeepsDisc(disc, erased[..|erased| - 1]);
    }
  }

  /** `deleteTracks`' loop: the groups are recomputed after each erase, in the given order. */
  method EraseEach(disc: Disc, order: seq<int>) returns (content: Disc)
    requires TitledNonEmpty(disc.groups)
    ensures content == DeletedAll(disc, order)
  {
    content := disc;
    for k := 0 to |order|
      invariant TitledNonEmpty(content.groups)
      invariant content == DeletedAll(disc, order[..k])
    {
      content := RecomputeGroupsAfterTrackMove(content, order[k], -1);
      assert order[..k + 1][..k] == order[..k];
    }
    assert order[..|order|] == order;
  }

  /** `renameTrack`'s walk over the cached groups. */
  method RetitleTracks(groups: seq<Group>, index: int, title: string, fullWidthTitle: Option<string>) returns (r: seq<Group>)
    ensures r == RetitledGroups(groups, index, title, fullWidthTitle)
  {
    r := [];
    for k := 0 to |groups|
      invariant |r| == k
      invariant forall i :: 0 <= i < k ==> r[i] == RetitledGroup(groups[i], index, title, fullWidthTitle)
    {
      var g := RetitleGroupTracks(groups[k], index, title, fullWidthTitle);
      r := r + [g];
    }
  }

  method RetitleGroupTracks(g: Group, index: int, title: string, fullWidthTitle: Option<string>) returns (r: Group)
    ensures r == RetitledGroup(g, index, title, fullWidthTitle)
  {
    var tracks := [];
    for j := 0 to |g.tracks|
      invariant |tracks| == j
      invariant forall i :: 0 <= i < j ==> tracks[i] == RetitledTrack(g.tracks[i], index, title, fullWidthTitle)
    {
      var t := g.tracks[j];
      if t.index == index {
        t := t.(title := Some(title));
        if fullWidthTitle.Some? {
          t := t.(fullWidthTitle := fullWidthTitle);
        }
      }
      tracks := tracks + [t];
    }
    r := g.(tracks := tracks);
  }

  /** `moveTrack`'s walk over the cached groups: swap `src` and `dst`, then sort each group. */
  method SwapTrackIndexes(groups: seq<Group>, src: int, dst: int) returns (r: seq<Group>)
    ensures r == SwappedGroups(groups, src, dst)
  {
    r := [];
    for k := 0 to |groups|
      invariant |r| == k
      invariant forall i :: 0 <= i < k ==> r[i] == SwappedGroup(groups[i], src, dst)
    {
      var g := SwapGroupTracks(groups[k], src, dst);
      r := r + [g];
    }
  }

  method SwapGroupTracks(g: Group, src: int, dst: int) returns (r: Group)
    ensures r == SwappedGroup(g, src, dst)
  {
    var tracks := [];
    for j := 0 to |g.tracks|
      invariant |tracks| == j
      invariant forall i :: 0 <= i < j ==> tracks[i] == SwappedTrack(g.tracks[i], src, dst)
    {
      var t := g.tracks[j];
      if t.index == dst {
        t := t.(index := src);
      } else if t.index == src {
        t := t.(index := dst);
      }
      tracks := tracks + [t];
    }
    assert tracks == SwappedTracks(g.tracks, src, dst);
    r := g.(tracks := SortBy(tracks, TrackKey));
  }

  class NetMDUSBService {
    /** `cachedContentList`: `None` once dropped. */
    var cachedContentList: Option<Disc>
    /** `currentSession !== undefined`. */
    var hasSession: bool

    constructor()
      ensures cachedContentList == None && !hasSession
    {
      cachedContentList := None;
      hasSession := false;
    }

    /** What `listContentUsingCache` returns: the cache, or else the device's list converted. */
    function Content(device: LibDisc): Disc
      reads this
    {
      if cachedContentList.Some? then cachedContentList.value else DiscToApp(device)
    }

    /** `listContentUsingCache`: fills the cache if needed and hands out a copy. */
    method ListContentUsingCache(device: LibDisc) returns (disc: Disc)
      modifies this
      ensures disc == old(Content(device))
      ensures cachedContentList == Some(disc) && hasSession == old(hasSession)
    {
      if cachedContentList.None? {
        cachedContentList := Some(DiscToApp(device));
      }
      disc := cachedContentList.value;
    }

    method DropCachedContentList()
      modifies this
      ensures cachedContentList == None && hasSession == old(hasSession)
    {
      cachedContentList := None;
    }

    /** `listContent(dropCache)`. */
    method ListContent(dropCache: bool, device: LibDisc) returns (disc: Disc)
      modifies this
      ensures disc == (if dropCache then DiscToApp(device) else old(Content(device)))
      ensures cachedContentList == Some(disc) && hasSession == old(hasSession)
    {
      if dropCache {
        DropCachedContentList();
      }
      disc := ListContentUsingCache(device);
    }

    /** `rewriteGroups`: the given groups replace the cached ones and go to the device. */
    method RewriteGroups(groups: seq<Group>, device: LibDisc) returns (sent: LibDisc)
      modifies this
      ensures cachedContentList == Some(old(Content(device)).(groups := groups))
      ensures sent == DiscToLib(cachedContentList.value) && hasSession == old(hasSession)
    {
      var disc := ListContentUsingCache(device);
      disc := disc.(groups := groups);
      cachedContentList := Some(disc);
      sent := DiscToLib(disc);
    }

    /**
     * `renameTrack`: the device gets the sanitised title; every cached track
     * with that index takes it, and the full-width title as given.
     */
    method RenameTrack(index: int, title: string, fullWidthTitle: Option<string>, sanitizeHalfWidth: string -> string, device: LibDisc)
      modifies this
      ensures var before := old(Content(device));
        cachedContentList == Some(before.(groups := RetitledGroups(before.groups, index, sanitizeHalfWidth(title), fullWidthTitle)))
      ensures hasSession == old(hasSession)
    {
      var halfWidth := sanitizeHalfWidth(title);
      var disc := ListContentUsingCache(device);
      var groups := RetitleTracks(disc.groups, index, halfWidth, fullWidthTitle);
      cachedContentList := Some(disc.(groups := groups));
    }

    /** `renameGroup`: nothing is written when no group has that index. */
    method RenameGroup(groupIndex: int, newName: string, newFullWidthName: Option<string>, device: LibDisc) returns (sent: Option<LibDisc>)
      modifies this
      ensures var before := old(Content(device));
        match GroupEdits.RenameGroup(before.groups, groupIndex, newName, newFullWidthName)
        case None => sent == None && cachedContentList == Some(before)
        case Some(gs) => cachedContentList == Some(before.(groups := gs)) && sent == Some(DiscToLib(before.(groups := gs)))
      ensures hasSession == old(hasSession)
    {
      var disc := ListContentUsingCache(device);
      var p := FindIndex(disc.groups, groupIndex);
      if p.None? {
        return None;
      }
      var g := disc.groups[p.value];
      g := g.(title := Some(newName));
      if newFullWidthName.Some? {
        g := g.(fullWidthTitle := newFullWidthName);
      }
      disc := disc.(groups := disc.groups[p.value := g]);
      cachedContentList := Some(disc);
      sent := Some(DiscToLib(disc));
    }

    /** `addGroup`: a throw leaves the cache as it was. */
    method AddGroup(groupBegin: int, groupLength: int, title: string, fullWidthTitle: string, device: LibDisc)
      returns (r: Result<Option<LibDisc>>)
      modifies this
      ensures var before := old(Content(device));
        match GroupEdits.AddGroup(before.groups, groupBegin, groupLength, title, fullWidthTitle)
        case Err(m) => r == Err(m) && cachedContentList == Some(before)
        case Ok(None) => r == Ok(None) && cachedContentList == Some(before)
        case Ok(Some(gs)) => cachedContentList == Some(before.(groups := gs)) && r == Ok(Some(DiscToLib(before.(groups := gs))))
      ensures hasSession == old(hasSession)
    {
      var disc := ListContentUsingCache(device);
      var outcome := GroupEdits.AddGroup(disc.groups, groupBegin, groupLength, title, fullWidthTitle);
      match outcome
      case Err(m) => r := Err(m);
      case Ok(None) => r := Ok(None);
      case Ok(Some(gs)) =>
        disc := disc.(groups := gs);
        cachedContentList := Some(disc);
        r := Ok(Some(DiscToLib(disc)));
    }

    /** `deleteGroup`: the result is cached and written even when no group matched. */
    method DeleteGroup(index: int, device: LibDisc) returns (sent: LibDisc)
      modifies this
      ensures var before := old(Content(device));
        cachedContentList == Some(before.(groups := GroupEdits.DeleteGroup(before.groups, index)))
      ensures sent == DiscToLib(cachedContentList.value) && hasSession == old(hasSession)
    {
      var disc := ListContentUsingCache(device);
      disc := disc.(groups := GroupEdits.DeleteGroup(disc.groups, index));
      cachedContentList := Some(disc);
      sent := DiscToLib(disc);
    }

    /** `renameDisc`. */
    method RenameDisc(newName: string, newFullWidthName: Option<string>, device: LibDisc)
      modifies this
      ensures var before := old(Content(device));
        cachedContentList == Some(before.(title := newName,
          fullWidthTitle := if newFullWidthName.Some? then newFullWidthName.value else before.fullWidthTitle))
      ensures hasSession == old(hasSession)
    {
      var disc := ListContentUsingCache(device);
      disc := disc.(title := newName);
      if newFullWidthName.Some? {
        disc := disc.(fullWidthTitle := newFullWidthName.value);
      }
      cachedContentList := Some(disc);
    }

    /**
     * `deleteTracks`: the indexes are erased from the largest down, the
     * groups recomputed after each erase, the result written and the cache
     * dropped.
     */
    method DeleteTracks(indexes: seq<int>, device: LibDisc) returns (erased: seq<int>, sent: LibDisc)
      requires TitledNonEmpty(Content(device).groups)
      modifies this
      ensures erased == DescendingIndexes(indexes)
      ensures sent == DiscToLib(DeletedAll(old(Content(device)), erased))
      ensures cachedContentList == None && hasSession == old(hasSession)
    {
      erased := DescendingIndexes(indexes);
      var content := ListContentUsingCache(device);
      content := EraseEach(content, erased);
      sent := DiscToLib(content);
      DropCachedContentList();
    }

    /**
     * `moveTrack`: the recomputed groups go to the device unless
     * `updateGroups` is false, while the cache keeps its groups with the
     * two indexes swapped.
     */
    method MoveTrack(src: int, dst: int, updateGroups: Option<bool>, device: LibDisc) returns (sent: Option<LibDisc>)
      requires updateGroups != Some(false) ==> TitledNonEmpty(Content(device).groups)
      modifies this
      ensures var before := old(Content(device));
        && sent == (if updateGroups == Some(false) then None else Some(DiscToLib(Recomputed(before, src, dst))))
        && cachedContentList == Some(before.(groups := SwappedGroups(before.groups, src, dst)))
      ensures hasSession == old(hasSession)
    {
      var content := ListContentUsingCache(device);
      sent := None;
      if updateGroups != Some(false) {
        var recomputed := RecomputeGroupsAfterTrackMove(content, src, dst);
        sent := Some(DiscToLib(recomputed));
      }
      var groups := SwapTrackIndexes(content.groups, src, dst);
      cachedContentList := Some(content.(groups := groups));
    }

    method PrepareUpload()
      modifies this
      ensures hasSession && cachedContentList == old(cachedContentList)
    {
      hasSession := true;
    }

    method FinalizeUpload()
      modifies this
      ensures !hasSession && cachedContentList == None
    {
      hasSession := false;
      cachedContentList := None;
    }

    /**
     * `upload`: the format is checked before the session, and a finished
     * upload drops the cache. The result names the wire format used.
     */
    method Upload(format: Codec) returns (r: Result<string>)
      modifies this
      ensures UploadFormat(format).Err? ==> r == UploadFormat(format)
      ensures UploadFormat(format).Ok? && !hasSession ==> r == Err("Cannot upload without initializing a session first")
      ensures UploadFormat(format).Ok? && hasSession ==> r == UploadFormat(format)
      ensures cachedContentList == (if r.Ok? then None else old(cachedContentList))
      ensures hasSession == old(hasSession)
    {
      var wire;
      if format.codec == "AT3" {
        wire := if format.bitrate == 66 then "LP4" else "LP2";
      } else if format.codec == "SPS" || format.codec == "SPM" {
        wire := "SP";
      } else {
        return Err("Invalid format for NetMD upload");
      }
      if !hasSession {
        return Err("Cannot upload without initializing a session first");
      }
      cachedContentList := None;
      r := Ok(wire);
    }
  }
}
