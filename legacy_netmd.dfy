/**
 * The older `NetMDUSBService` of src/wmd/netmd.ts. It works on the disc as
 * netmd-js lists it, caches that list, and edits groups on a copy of the
 * cache before writing them to the device. The device and netmd-js are
 * parameters: the disc the library would list (`device`) and the values
 * handed to it (out-parameters).
 */
module LegacyNetMD {
  import opened Common
  import opened Strings
  import opened Sorting
  import opened DiscModel
  import opened MinidiscSpecs
  import opened GroupEdits
  import opened GroupRecompute
  import opened NetMDService

  /** What `getServiceCapabilities` asks of the connected USB device. */
  datatype UsbDevice = UsbDevice(
    vendor: int,
    product: int,
    deviceName: string,
    canEjectDisc: bool,
    /** The write-protect bit of `getDiscFlags()`, or the error it threw. */
    writeProtected: Result<bool>)

  /** Only the non-HiMD Sony portables, and the Aiwa AM-NX built like them, have a factory mode. */
  predicate HasFactoryMode(deviceName: string) {
    || (Contains(deviceName, "Sony") && (Contains(deviceName, "MZ-N") || Contains(deviceName, "MZ-S1"))
        && !Contains(deviceName, "MZ-NH"))
    || (Contains(deviceName, "Aiwa") && Contains(deviceName, "AM-NX"))
  }

  // ---------------------------------------------------------------------
  // `indexes.sort()`: JavaScript's default sort compares the decimal strings.

  /** Inserts `x` after every element whose string is not larger. */
  function InsertByString(x: int, s: seq<int>): (r: seq<int>)
    ensures multiset(r) == multiset(s) + multiset{x}
    ensures r[0] == x || (s != [] && r[0] == s[0])
  {
    if s == [] || LexLess(IntToString(x), IntToString(s[0])) then [x] + s
    else
      assert s == [s[0]] + s[1..];
      [s[0]] + InsertByString(x, s[1..])
  }

  /** `s.sort()` with no comparator, on numbers. */
  function DefaultSort(s: seq<int>): (r: seq<int>)
    ensures multiset(r) == multiset(s)
  {
    if s == [] then []
    else
      assert s == s[..|s| - 1] + [s[|s| - 1]];
      InsertByString(s[|s| - 1], DefaultSort(s[..|s| - 1]))
  }

  /** Ascending in the order of the decimal strings. */
  ghost predicate StringSorted(s: seq<int>) {
    forall i :: 0 <= i < |s| - 1 ==> !LexLess(IntToString(s[i + 1]), IntToString(s[i]))
  }

  lemma {:induction false} InsertByStringSorted(x: int, s: seq<int>)
    requires StringSorted(s)
    ensures StringSorted(InsertByString(x, s))
  {
    if s != [] {
      if LexLess(IntToString(x), IntToString(s[0])) {
        LexLessAsymmetric(IntToString(x), IntToString(s[0]));
      } else {
        InsertByStringSorted(x, s[1..]);
      }
    }
  }

  /** The default sort is a permutation ordered by the decimal strings. */
  lemma {:induction false} DefaultSortSorted(s: seq<int>)
    ensures StringSorted(DefaultSort(s))
    ensures multiset(DefaultSort(s)) == multiset(s)
  {
    if s != [] {
      DefaultSortSorted(s[..|s| - 1]);
      InsertByStringSorted(s[|s| - 1], DefaultSort(s[..|s| - 1]));
    }
  }

  /** The order `deleteTracks` erases in, as written: the default sort, reversed. */
  function AsWrittenDeleteOrder(indexes: seq<int>): (r: seq<int>)
    ensures multiset(r) == multiset(indexes)
  {
    ReverseMultiset(DefaultSort(indexes));
    Reverse(DefaultSort(indexes))
  }

  // ---------------------------------------------------------------------
  // What erasing does on the device: the tracks after an erased one move up.

  /**
   * The device's tracks after `eraseTrack` for each index in turn. An index
   * past the end is skipped (the device would refuse it).
   */
  function ErasedInOrder<T>(tracks: seq<T>, order: seq<int>): seq<T>
    decreases order
  {
    if order == [] then tracks
    else if 0 <= order[0] < |tracks| then ErasedInOrder(RemoveAt(tracks, order[0]), order[1..])
    else ErasedInOrder(tracks, order[1..])
  }

  /** The tracks whose positions are not in `gone`, in order: what deleting `gone` should leave. */
  function Kept<T>(tracks: seq<T>, gone: set<int>): (r: seq<T>)
    ensures |r| <= |tracks|
  {
    if tracks == [] then []
    else Kept(tracks[..|tracks| - 1], gone) + (if |tracks| - 1 in gone then [] else [tracks[|tracks| - 1]])
  }

  /** The values of a sequence. */
  function Elements(s: seq<int>): (r: set<int>)
    ensures forall x :: x in r <==> x in s
  {
    set x | x in s
  }

  predicate StrictlyDescending(s: seq<int>) {
    forall i, j :: 0 <= i < j < |s| ==> s[i] > s[j]
  }

  predicate Distinct(s: seq<int>) {
    forall i, j :: 0 <= i < j < |s| ==> s[i] != s[j]
  }

  lemma {:induction false} KeptSameGone<T>(tracks: seq<T>, gone: set<int>, other: set<int>)
    requires forall p :: 0 <= p < |tracks| ==> (p in gone <==> p in other)
    ensures Kept(tracks, gone) == Kept(tracks, other)
  {
    if tracks != [] {
      KeptSameGone(tracks[..|tracks| - 1], gone, other);
    }
  }

  /** Removing position `a` past every other removed position splits the result at `a`. */
  lemma {:induction false} KeptSplit<T>(tracks: seq<T>, gone: set<int>, a: nat)
    requires a < |tracks|
    requires forall g :: g in gone ==> g < a
    ensures Kept(tracks, gone + {a}) == Kept(tracks[..a], gone) + tracks[a + 1..]
  {
    var n := |tracks|;
    var init := tracks[..n - 1];
    if n == a + 1 {
      KeptSameGone(init, gone + {a}, gone);
      assert init == tracks[..a];
    } else {
      KeptSplit(init, gone, a);
      assert init[..a] == tracks[..a];
      assert tracks[a + 1..] == init[a + 1..] + [tracks[n - 1]];
    }
  }

  /** Erasing below `k` leaves the tracks from `k` on where they are. */
  lemma {:induction false} ErasedBelow<T>(tracks: seq<T>, order: seq<int>, k: nat)
    requires k <= |tracks|
    requires StrictlyDescending(order)
    requires forall i :: 0 <= i < |order| ==> 0 <= order[i] < k
    ensures ErasedInOrder(tracks, order) == ErasedInOrder(tracks[..k], order) + tracks[k..]
    decreases order
  {
    if order != [] {
      var o := order[0];
      var rest := RemoveAt(tracks, o);
      assert RemoveAt(tracks[..k], o) == rest[..k - 1];
      assert rest[k - 1..] == tracks[k..];
      ErasedBelow(rest, order[1..], k - 1);
    }
  }

  /** Erasing from the largest index down deletes exactly the requested tracks. */
  lemma {:induction false} DescendingErasure<T>(tracks: seq<T>, order: seq<int>)
    requires StrictlyDescending(order)
    requires forall i :: 0 <= i < |order| ==> 0 <= order[i] < |tracks|
    ensures ErasedInOrder(tracks, order) == Kept(tracks, Elements(order))
    decreases order
  {
    var gone := Elements(order);
    if order == [] {
      KeptSameGone(tracks, gone, {});
      KeptNone(tracks);
    } else {
      var a := order[0];
      var rest := order[1..];
      var restGone := Elements(rest);
      assert gone == restGone + {a} by {
        assert order == [a] + rest;
      }
      ErasedBelow(RemoveAt(tracks, a), rest, a);
      assert RemoveAt(tracks, a)[..a] == tracks[..a];
      assert RemoveAt(tracks, a)[a..] == tracks[a + 1..];
      DescendingErasure(tracks[..a], rest);
      KeptSplit(tracks, restGone, a);
    }
  }

  lemma {:induction false} KeptNone<T>(tracks: seq<T>)
    ensures Kept(tracks, {}) == tracks
  {
    if tracks != [] {
      KeptNone(tracks[..|tracks| - 1]);
    }
  }

  /** Distinct values occur once each. */
  lemma {:induction false} DistinctOnce(s: seq<int>, v: int)
    requires Distinct(s)
    ensures multiset(s)[v] <= 1
  {
    if s != [] {
      assert s == [s[0]] + s[1..];
      DistinctOnce(s[1..], v);
      if v == s[0] {
        assert v !in s[1..];
      }
    }
  }

  lemma RepeatedTwice(s: seq<int>, i: nat, j: nat)
    requires i < j < |s| && s[i] == s[j]
    ensures multiset(s)[s[i]] >= 2
  {
    assert s == s[..j] + [s[j]] + s[j + 1..];
    assert multiset(s) == multiset(s[..j]) + multiset{s[j]} + multiset(s[j + 1..]);
    assert s[..j][i] == s[i];
  }

  /** Two sequences with the same elements counted have the same values. */
  lemma SameValues(r: seq<int>, s: seq<int>, n: int)
    requires multiset(r) == multiset(s)
    requires forall i :: 0 <= i < |s| ==> 0 <= s[i] < n
    ensures forall i :: 0 <= i < |r| ==> 0 <= r[i] < n
    ensures Elements(r) == Elements(s)
  {
    forall i | 0 <= i < |r| ensures 0 <= r[i] < n {
      assert r[i] in multiset(s);
      var k :| 0 <= k < |s| && s[k] == r[i];
    }
    assert forall x :: x in r <==> x in multiset(r);
    assert forall x :: x in s <==> x in multiset(s);
  }

  /** Distinct indexes come out of `DescendingIndexes` strictly descending. */
  lemma DescendingIndexesStrict(indexes: seq<int>)
    requires Distinct(indexes)
    ensures StrictlyDescending(DescendingIndexes(indexes))
  {
    var r := DescendingIndexes(indexes);
    DescendingIndexesOrder(indexes);
    forall i, j | 0 <= i < j < |r| ensures r[i] > r[j] {
      if r[i] == r[j] {
        DistinctOnce(indexes, r[i]);
        RepeatedTwice(r, i, j);
        assert false;
      }
    }
  }

  /**
   * The corrected order: erasing distinct, existing track indexes from the
   * largest down deletes exactly the requested tracks.
   */
  lemma CorrectedDeleteOrder<T>(tracks: seq<T>, indexes: seq<int>)
    requires Distinct(indexes)
    requires forall i :: 0 <= i < |indexes| ==> 0 <= indexes[i] < |tracks|
    ensures ErasedInOrder(tracks, DescendingIndexes(indexes)) == Kept(tracks, Elements(indexes))
  {
    var r := DescendingIndexes(indexes);
    DescendingIndexesOrder(indexes);
    DescendingIndexesStrict(indexes);
    SameValues(r, indexes, |tracks|);
    DescendingErasure(tracks, r);
  }

  /**
   * As written, `[9, 10]` is erased 9 first: "10" sorts before "9", and the
   * reversal puts 9 in front. Erasing track 9 moves track 10 up, so the
   * second erase removes what was track 11 and track 10 survives.
   */
  lemma AsWrittenDeleteOrderCounterexample()
    ensures AsWrittenDeleteOrder([9, 10]) == [9, 10]
    ensures DescendingIndexes([9, 10]) == [10, 9]
    ensures ErasedInOrder(Twelve(), [9, 10]) == [0, 1, 2, 3, 4, 5, 6, 7, 8, 10]
    ensures ErasedInOrder(Twelve(), [10, 9]) == [0, 1, 2, 3, 4, 5, 6, 7, 8, 11]
  {
    AsWrittenOrderOfNineAndTen();
    NumericOrderOfNineAndTen();
    AscendingErasure();
    DescendingErasureOfTwo();
  }

  /** Twelve tracks, each standing for its original number. */
  function Twelve(): (r: seq<int>)
    ensures |r| == 12 && forall i :: 0 <= i < 12 ==> r[i] == i
  {
    [0, 1, 2, 3, 4, 5, 6, 7, 8, 9, 10, 11]
  }

  lemma AscendingErasure()
    ensures ErasedInOrder(Twelve(), [9, 10]) == [0, 1, 2, 3, 4, 5, 6, 7, 8, 10]
  {
    var once := RemoveAt(Twelve(), 9);
    assert once == [0, 1, 2, 3, 4, 5, 6, 7, 8, 10, 11];
    assert ErasedInOrder(Twelve(), [9, 10]) == ErasedInOrder(once, [10]);
    assert ErasedInOrder(once, [10]) == ErasedInOrder(RemoveAt(once, 10), []);
  }

  lemma DescendingErasureOfTwo()
    ensures ErasedInOrder(Twelve(), [10, 9]) == [0, 1, 2, 3, 4, 5, 6, 7, 8, 11]
  {
    var once := RemoveAt(Twelve(), 10);
    assert once == [0, 1, 2, 3, 4, 5, 6, 7, 8, 9, 11];
    assert ErasedInOrder(Twelve(), [10, 9]) == ErasedInOrder(once, [9]);
    assert ErasedInOrder(once, [9]) == ErasedInOrder(RemoveAt(once, 9), []);
  }

  lemma AsWrittenOrderOfNineAndTen()
    ensures AsWrittenDeleteOrder([9, 10]) == [9, 10]
  {
    StringOrderOfNineAndTen();
    var r := Reverse([10, 9]);
    assert r[0] == 9 && r[1] == 10;
  }

  /** "10" sorts before "9". */
  lemma StringOrderOfNineAndTen()
    ensures DefaultSort([9, 10]) == [10, 9]
  {
    assert IntToString(9) == "9";
    assert IntToString(10) == "10";
    assert [9, 10][..1] == [9];
  }

  lemma NumericOrderOfNineAndTen()
    ensures DescendingIndexes([9, 10]) == [10, 9]
  {
    assert [9, 10][1..] == [10];
    assert SortBy([10], Identity) == [10];
  }

  // ---------------------------------------------------------------------

  class LegacyNetMDService {
    /** `cachedContentList`: `None` once dropped. */
    var cachedContentList: Option<Disc>
    /** `currentSession !== undefined`. */
    var hasSession: bool

    constructor()
      ensures cachedContentList == None && !hasSession
    {
      cachedContentList := None;
      hasSession := false;
    }

    /**
     * `getServiceCapabilities`: content listing and playback always;
     * download on the MZ-RH1; eject when the device can; the factory mode by
     * device name; upload and metadata editing unless the disc is write
     * protected. Without a device the flags read as 0, so upload is offered.
     */
    method GetServiceCapabilities(device: Option<UsbDevice>) returns (caps: seq<Capability>)
      ensures |caps| >= 2 && caps[..2] == [ContentList, PlaybackControl]
      ensures TrackDownload in caps <==> device.Some? && device.value.vendor == 0x54c && device.value.product == 0x0286
      ensures DiscEject in caps <==> device.Some? && device.value.canEjectDisc
      ensures FactoryMode in caps <==> device.Some? && HasFactoryMode(device.value.deviceName)
      ensures TrackUpload in caps <==> device.None? || device.value.writeProtected == Ok(false)
      ensures TrackUpload in caps <==> MetadataEdit in caps
      ensures TrackUpload in caps ==> caps[|caps| - 2..] == [TrackUpload, MetadataEdit]
    {
      caps := [ContentList, PlaybackControl];
      if device.Some? && device.value.vendor == 0x54c && device.value.product == 0x0286 {
        caps := caps + [TrackDownload];
      }
      if device.Some? && device.value.canEjectDisc {
        caps := caps + [DiscEject];
      }
      if device.Some? && HasFactoryMode(device.value.deviceName) {
        caps := caps + [FactoryMode];
      }
      var flags := if device.Some? then device.value.writeProtected else Ok(false);
      if flags == Ok(false) {
        caps := caps + [TrackUpload, MetadataEdit];
      }
    }

    /** What `listContentUsingCache` returns: the cache, or else the device's list. */
    function Content(device: Disc): Disc
      reads this
    {
      if cachedContentList.Some? then cachedContentList.value else device
    }

    /** `listContentUsingCache`: fills the cache if needed and hands out a copy. */
    method ListContentUsingCache(device: Disc) returns (disc: Disc)
      modifies this
      ensures disc == old(Content(device))
      ensures cachedContentList == Some(disc) && hasSession == old(hasSession)
    {
      if cachedContentList.None? {
        cachedContentList := Some(device);
      }
      disc := cachedContentList.value;
    }

    method DropCachedContentList()
      modifies this
      ensures cachedContentList == None && hasSession == old(hasSession)
    {
      cachedContentList := None;
    }

    /** `listContent` always reads the device afresh. */
    method ListContent(device: Disc) returns (disc: Disc)
      modifies this
      ensures disc == device && cachedContentList == Some(device)
      ensures hasSession == old(hasSession)
    {
      DropCachedContentList();
      disc := ListContentUsingCache(device);
    }

    /** `rewriteGroups`: the groups go to the device on a copy; the cache keeps its groups. */
    method RewriteGroups(groups: seq<Group>, device: Disc) returns (sent: Disc)
      modifies this
      ensures cachedContentList == Some(old(Content(device)))
      ensures sent == old(Content(device)).(groups := groups) && hasSession == old(hasSession)
    {
      var disc := ListContentUsingCache(device);
      sent := disc.(groups := groups);
    }

    /**
     * `renameTrack`: the sanitised title goes to the device, the full-width
     * one only when given, and the cache is dropped.
     */
    method RenameTrack(index: int, title: string, fullWidthTitle: Option<string>,
                       sanitizeHalfWidth: string -> string, sanitizeFullWidth: string -> string)
      returns (halfWidthSent: string, fullWidthSent: Option<string>)
      modifies this
      ensures halfWidthSent == sanitizeHalfWidth(title)
      ensures fullWidthSent.Some? <==> fullWidthTitle.Some?
      ensures fullWidthTitle.Some? ==> fullWidthSent == Some(sanitizeFullWidth(fullWidthTitle.value))
      ensures cachedContentList == None && hasSession == old(hasSession)
    {
      halfWidthSent := sanitizeHalfWidth(title);
      fullWidthSent := None;
      if fullWidthTitle.Some? {
        fullWidthSent := Some(sanitizeFullWidth(fullWidthTitle.value));
      }
      DropCachedContentList();
    }

    /**
     * `renameGroup`: nothing is written when no group has that index; the
     * edit is made on a copy, so the cache keeps the old title.
     */
    method RenameGroup(groupIndex: int, newName: string, newFullWidthName: Option<string>, device: Disc)
      returns (sent: Option<Disc>)
      modifies this
      ensures var before := old(Content(device));
        && cachedContentList == Some(before)
        && sent == match GroupEdits.RenameGroup(before.groups, groupIndex, newName, newFullWidthName)
                   case None => None
                   case Some(gs) => Some(before.(groups := gs))
      ensures hasSession == old(hasSession)
    {
      var disc := ListContentUsingCache(device);
      var p := FindIndex(disc.groups, groupIndex);
      if p.None? {
        return None;
      }
      var g := disc.groups[p.value];
      g := g.(title := Some(newName));
      if newFullWidthName.Some? {
        g := g.(fullWidthTitle := newFullWidthName);
      }
      sent := Some(disc.(groups := disc.groups[p.value := g]));
    }

    /**
     * `addGroup`: the same edit as the newer service with an empty
     * full-width title, made on a copy: the cache is not updated.
     */
    method AddGroup(groupBegin: int, groupLength: int, title: string, device: Disc)
      returns (r: Result<Option<Disc>>)
      modifies this
      ensures var before := old(Content(device));
        && cachedContentList == Some(before)
        && r == match GroupEdits.AddGroup(before.groups, groupBegin, groupLength, title, "")
                case Err(m) => Err(m)
                case Ok(None) => Ok(None)
                case Ok(Some(gs)) => Ok(Some(before.(groups := gs)))
      ensures hasSession == old(hasSession)
    {
      var disc := ListContentUsingCache(device);
      var outcome := GroupEdits.AddGroup(disc.groups, groupBegin, groupLength, title, "");
      match outcome
      case Err(m) => r := Err(m);
      case Ok(None) => r := Ok(None);
      case Ok(Some(gs)) => r := Ok(Some(disc.(groups := gs)));
    }

    /**
     * `deleteGroup`: the matching group is spliced out with its tracks (they
     * do not go back to the ungrouped list); the result is cached and written.
     */
    method DeleteGroup(index: int, device: Disc) returns (sent: Disc)
      modifies this
      ensures var before := old(Content(device));
        cachedContentList == Some(before.(groups := DeleteGroupOnly(before.groups, index)))
      ensures sent == cachedContentList.value && hasSession == old(hasSession)
    {
      var disc := ListContentUsingCache(device);
      var p := FindIndex(disc.groups, index);
      if p.Some? {
        disc := disc.(groups := RemoveAt(disc.groups, p.value));
      }
      cachedContentList := Some(disc);
      sent := disc;
    }

    /** `renameDisc`: the library renames the disc, and the cache is dropped. */
    method RenameDisc()
      modifies this
      ensures cachedContentList == None && hasSession == old(hasSession)
    {
      DropCachedContentList();
    }

    /**
     * `deleteTracks`, as written: the indexes are erased in the default
     * (string) sort order reversed, the groups recomputed after each erase,
     * the result written and the cache dropped. `DescendingIndexes` is the
     * order the erasure needs; `AsWrittenDeleteOrderCounterexample` shows
     * where the two part.
     */
    method DeleteTracks(indexes: seq<int>, device: Disc) returns (erased: seq<int>, sent: Disc)
      requires TitledNonEmpty(Content(device).groups)
      modifies this
      ensures erased == AsWrittenDeleteOrder(indexes)
      ensures multiset(erased) == multiset(indexes)
      ensures sent == DeletedAll(old(Content(device)), erased)
      ensures cachedContentList == None && hasSession == old(hasSession)
    {
      erased := AsWrittenDeleteOrder(indexes);
      var content := ListContentUsingCache(device);
      content := EraseEach(content, erased);
      sent := content;
      DropCachedContentList();
    }

    /**
     * `moveTrack`: the recomputed groups go to the device unless
     * `updateGroups` is false, and the cache is dropped.
     */
    method MoveTrack(src: int, dst: int, updateGroups: Option<bool>, device: Disc) returns (sent: Option<Disc>)
      requires updateGroups != Some(false) ==> TitledNonEmpty(Content(device).groups)
      modifies this
      ensures sent == (if updateGroups == Some(false) then None else Some(Recomputed(old(Content(device)), src, dst)))
      ensures cachedContentList == None && hasSession == old(hasSession)
    {
      sent := None;
      if updateGroups != Some(false) {
        var content := ListContentUsingCache(device);
        var recomputed := RecomputeGroupsAfterTrackMove(content, src, dst);
        sent := Some(recomputed);
      }
      DropCachedContentList();
    }

    /** `prepareUpload` opens a session whatever the previous state. */
    method PrepareUpload()
      modifies this
      ensures hasSession && cachedContentList == old(cachedContentList)
    {
      hasSession := true;
    }

    /**
     * `finalizeUpload`: closing a session that was never opened throws, and
     * then nothing changes; otherwise the session ends and the cache is dropped.
     */
    method FinalizeUpload() returns (ok: bool)
      modifies this
      ensures ok == old(hasSession)
      ensures ok ==> !hasSession && cachedContentList == None
      ensures !ok ==> !hasSession && cachedContentList == old(cachedContentList)
    {
      ok := hasSession;
      if ok {
        hasSession := false;
        cachedContentList := None;
      }
    }

    /** `upload` is refused before any work without a session. */
    method Upload() returns (r: Result<()>)
      ensures r.Err? <==> !hasSession
      ensures r.Err? ==> r.message == "Cannot upload without initializing a session first"
    {
      if !hasSession {
        return Err("Cannot upload without initializing a session first");
      }
      r := Ok(());
    }
  }
}
