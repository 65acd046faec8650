/**
 * The edits both NetMD services make to the group list of their cached
 * table of contents: adding a group from ungrouped tracks, deleting a
 * group, renaming a group or a track, and swapping two track indexes.
 * Each edit is a function of the group list; the services apply them to
 * their cache and send the result to the device.
 */
module GroupEdits {
  import opened Common
  import opened Sorting
  import opened DiscModel
  import opened Utils

  /** Every track on a group list, counted with multiplicity. */
  function Bag(groups: seq<Group>): multiset<Track> {
    multiset(AllTracks(groups))
  }

  lemma BagConcat(a: seq<Group>, b: seq<Group>)
    ensures Bag(a + b) == Bag(a) + Bag(b)
  {
    AllTracksConcat(a, b);
  }

  lemma BagSingle(g: Group)
    ensures Bag([g]) == multiset(g.tracks)
  {
    assert AllTracks([g]) == AllTracks([]) + g.tracks;
  }

  /** Removing a group removes exactly its tracks. */
  lemma BagRemove(groups: seq<Group>, p: nat)
    requires p < |groups|
    ensures Bag(RemoveAt(groups, p)) + multiset(groups[p].tracks) == Bag(groups)
  {
    assert groups == groups[..p] + [groups[p]] + groups[p + 1..];
    BagConcat(groups[..p] + [groups[p]], groups[p + 1..]);
    BagConcat(groups[..p], [groups[p]]);
    BagConcat(groups[..p], groups[p + 1..]);
    BagSingle(groups[p]);
  }

  /** Replacing a group swaps its tracks for the new group's. */
  lemma BagUpdate(groups: seq<Group>, u: nat, g: Group)
    requires u < |groups|
    ensures Bag(groups[u := g]) == Bag(RemoveAt(groups, u)) + multiset(g.tracks)
  {
    BagRemove(groups[u := g], u);
    assert RemoveAt(groups[u := g], u) == RemoveAt(groups, u);
  }

  /** Reordering the groups does not change which tracks they hold. */
  lemma {:induction false} BagPermutation(a: seq<Group>, b: seq<Group>)
    requires multiset(a) == multiset(b)
    ensures Bag(a) == Bag(b)
    decreases |a|
  {
    if a == [] {
      assert |b| == |multiset(b)| == 0;
    } else {
      var last := a[|a| - 1];
      assert last in multiset(b);
      var k :| 0 <= k < |b| && b[k] == last;
      assert a == a[..|a| - 1] + [last];
      assert multiset(a[..|a| - 1]) == multiset(RemoveAt(b, k)) by {
        assert multiset(a) == multiset(a[..|a| - 1]) + multiset{last};
        MultisetRemoveAt(b, k);
        calc {
          multiset(a[..|a| - 1]);
          multiset(a) - multiset{last};
          multiset(b) - multiset{last};
          multiset(RemoveAt(b, k));
        }
      }
      BagPermutation(a[..|a| - 1], RemoveAt(b, k));
      BagRemove(b, k);
      BagConcat(a[..|a| - 1], [last]);
      BagSingle(last);
    }
  }

  // ------------------------------------------------------------ addGroup

  predicate InRange(t: Track, begin: int, length: int) {
    begin <= t.index < begin + length
  }

  /** `tracks.filter(n => n.index >= begin && n.index < begin + length)`. */
  function Selected(tracks: seq<Track>, begin: int, length: int): (r: seq<Track>)
    ensures forall t :: t in r ==> t in tracks && InRange(t, begin, length)
  {
    if tracks == [] then []
    else
      var last := tracks[|tracks| - 1];
      Selected(tracks[..|tracks| - 1], begin, length) + (if InRange(last, begin, length) then [last] else [])
  }

  /** The tracks left behind: the others, in their order. */
  function Remaining(tracks: seq<Track>, begin: int, length: int): (r: seq<Track>)
    ensures forall t :: t in r ==> t in tracks && !InRange(t, begin, length)
  {
    if tracks == [] then []
    else
      var last := tracks[|tracks| - 1];
      Remaining(tracks[..|tracks| - 1], begin, length) + (if InRange(last, begin, length) then [] else [last])
  }

  /** The selected and the remaining tracks split the list between them. */
  lemma {:induction false} SelectedRemaining(tracks: seq<Track>, begin: int, length: int)
    ensures multiset(Selected(tracks, begin, length)) + multiset(Remaining(tracks, begin, length)) == multiset(tracks)
    ensures |Selected(tracks, begin, length)| + |Remaining(tracks, begin, length)| == |tracks|
  {
    if tracks != [] {
      var init, last := tracks[..|tracks| - 1], tracks[|tracks| - 1];
      SelectedRemaining(init, begin, length);
      assert tracks == init + [last];
      assert multiset(tracks) == multiset(init) + multiset{last};
      if InRange(last, begin, length) {
        assert Selected(tracks, begin, length) == Selected(init, begin, length) + [last];
        assert Remaining(tracks, begin, length) == Remaining(init, begin, length);
      } else {
        assert Selected(tracks, begin, length) == Selected(init, begin, length);
        assert Remaining(tracks, begin, length) == Remaining(init, begin, length) + [last];
      }
    }
  }

  /** `tracks.map(n => n.index)`. */
  function Indices(tracks: seq<Track>): (r: seq<int>)
    ensures |r| == |tracks|
  {
    seq(|tracks|, i requires 0 <= i < |tracks| => tracks[i].index)
  }

  /** `filter(g => g.tracks.length !== 0)`. */
  function NonEmptyGroups(groups: seq<Group>): (r: seq<Group>)
    ensures forall g :: g in r ==> g in groups && |g.tracks| > 0
  {
    if groups == [] then []
    else
      var last := groups[|groups| - 1];
      NonEmptyGroups(groups[..|groups| - 1]) + (if |last.tracks| > 0 then [last] else [])
  }

  /** Dropping empty groups keeps every track, in order. */
  lemma {:induction false} NonEmptyGroupsTracks(groups: seq<Group>)
    ensures AllTracks(NonEmptyGroups(groups)) == AllTracks(groups)
  {
    if groups != [] {
      var init, last := groups[..|groups| - 1], groups[|groups| - 1];
      assert groups == init + [last];
      NonEmptyGroupsTracks(init);
      NonEmptyGroupsSnoc(init, last);
      AllTracksAppend(init, last);
      if |last.tracks| > 0 {
        AllTracksAppend(NonEmptyGroups(init), last);
      } else {
        EmptyGroupAddsNothing(init, last);
      }
    }
  }

  lemma EmptyGroupAddsNothing(init: seq<Group>, last: Group)
    requires last.tracks == []
    ensures AllTracks(init + [last]) == AllTracks(init)
  {
    AllTracksAppend(init, last);
    assert AllTracks(init) + last.tracks == AllTracks(init);
  }

  lemma NonEmptyGroupsSnoc(init: seq<Group>, last: Group)
    ensures |last.tracks| > 0 ==> NonEmptyGroups(init + [last]) == NonEmptyGroups(init) + [last]
    ensures |last.tracks| == 0 ==> NonEmptyGroups(init + [last]) == NonEmptyGroups(init)
  {
    assert (init + [last])[..|init|] == init;
    assert NonEmptyGroups(init) + [] == NonEmptyGroups(init);
  }

  lemma NonEmptyGroupsKeeps(groups: seq<Group>, g: Group)
    requires g in groups && |g.tracks| > 0
    ensures g in NonEmptyGroups(groups)
    decreases |groups|
  {
    var init, last := groups[..|groups| - 1], groups[|groups| - 1];
    assert groups == init + [last];
    if g != last {
      NonEmptyGroupsKeeps(init, g);
    }
  }

  /** The sort key of `(a, b) => a.tracks[0].index - b.tracks[0].index`. */
  function FirstTrackIndex(g: Group): int {
    if |g.tracks| > 0 then g.tracks[0].index else 0
  }

  /**
   * `addGroup`: the tracks of the ungrouped group whose indexes fall in
   * `[begin, begin + length)` become a new group titled `title`, pushed
   * with index `groups.length`; empty groups are then dropped and the
   * rest sorted by their first track. `Ok(None)` is the early return when
   * there is no ungrouped group.
   */
  function AddGroup(groups: seq<Group>, begin: int, length: int, title: string, fullWidthTitle: string): Result<Option<seq<Group>>> {
    match FirstUntitled(groups)
    case None => Ok(None)
    case Some(u) =>
      var ungrouped := groups[u].tracks;
      var selected := Selected(ungrouped, begin, length);
      var remaining := Remaining(ungrouped, begin, length);
      if |ungrouped| - |remaining| != length then Err("A track cannot be in 2 groups!")
      else if !Sequential(Indices(selected)) then Err("Invalid sequence of tracks!")
      else Ok(Some(Regrouped(groups, u, remaining, Group(|groups|, Some(title), Some(fullWidthTitle), selected))))
  }

  /** The ungrouped group at `u` keeps `remaining`, `added` is pushed, empty groups go, the rest is sorted. */
  function Regrouped(groups: seq<Group>, u: nat, remaining: seq<Track>, added: Group): seq<Group>
    requires u < |groups|
  {
    SortBy(NonEmptyGroups(groups[u := groups[u].(tracks := remaining)] + [added]), FirstTrackIndex)
  }

  /**
   * When the remaining and the added tracks split the ungrouped group, the
   * regrouped list holds the same tracks, only non-empty groups, in order
   * of their first track, and the added group if it has a track.
   */
  lemma RegroupedResult(groups: seq<Group>, u: nat, remaining: seq<Track>, added: Group)
    requires u < |groups|
    requires multiset(added.tracks) + multiset(remaining) == multiset(groups[u].tracks)
    ensures var gs := Regrouped(groups, u, remaining, added);
      && Bag(gs) == Bag(groups)
      && (forall k :: 0 <= k < |gs| ==> |gs[k].tracks| > 0)
      && SortedBy(gs, FirstTrackIndex)
      && (|added.tracks| > 0 ==> added in gs)
  {
    var updated := groups[u := groups[u].(tracks := remaining)];
    var pushed := updated + [added];
    BagRemove(groups, u);
    BagUpdate(groups, u, groups[u].(tracks := remaining));
    BagConcat(updated, [added]);
    BagSingle(added);
    calc {
      Bag(pushed);
      Bag(RemoveAt(groups, u)) + multiset(remaining) + multiset(added.tracks);
      Bag(RemoveAt(groups, u)) + (multiset(added.tracks) + multiset(remaining));
      Bag(groups);
    }
    var kept := NonEmptyGroups(pushed);
    NonEmptyGroupsTracks(pushed);
    var gs := SortBy(kept, FirstTrackIndex);
    BagPermutation(gs, kept);
    forall k | 0 <= k < |gs| ensures |gs[k].tracks| > 0 {
      assert gs[k] in multiset(kept);
    }
    if |added.tracks| > 0 {
      assert added in pushed;
      NonEmptyGroupsKeeps(pushed, added);
      assert added in multiset(gs);
    }
  }

  /**
   * `addGroup` fails with "A track cannot be in 2 groups!" exactly when the
   * ungrouped group does not hold `length` tracks of the range, and with
   * "Invalid sequence of tracks!" exactly when it does but their indexes
   * are not consecutive in list order.
   */
  lemma AddGroupErrors(groups: seq<Group>, begin: int, length: int, title: string, fullWidthTitle: string)
    ensures var r := AddGroup(groups, begin, length, title, fullWidthTitle);
      match FirstUntitled(groups)
      case None => r == Ok(None)
      case Some(u) =>
        var selected := Selected(groups[u].tracks, begin, length);
        && (r == Err("A track cannot be in 2 groups!") <==> |selected| != length)
        && (r == Err("Invalid sequence of tracks!") <==> |selected| == length && !Sequential(Indices(selected)))
        && (r.Ok? <==> |selected| == length && Sequential(Indices(selected)))
  {
    match FirstUntitled(groups)
    case None =>
    case Some(u) =>
      SelectedRemaining(groups[u].tracks, begin, length);
  }

  /**
   * A successful `addGroup` loses no track and duplicates none, leaves no
   * group empty, orders the groups by their first track's index, and
   * holds the new group with exactly the selected tracks.
   */
  lemma AddGroupResult(groups: seq<Group>, begin: int, length: int, title: string, fullWidthTitle: string)
    requires AddGroup(groups, begin, length, title, fullWidthTitle).Ok?
    requires AddGroup(groups, begin, length, title, fullWidthTitle).value.Some?
    ensures var gs := AddGroup(groups, begin, length, title, fullWidthTitle).value.value;
      && Bag(gs) == Bag(groups)
      && (forall k :: 0 <= k < |gs| ==> |gs[k].tracks| > 0)
      && SortedBy(gs, FirstTrackIndex)
      && (length > 0 ==> Group(|groups|, Some(title), Some(fullWidthTitle),
                               Selected(groups[FirstUntitled(groups).value].tracks, begin, length)) in gs)
  {
    var u := FirstUntitled(groups).value;
    var ungrouped := groups[u].tracks;
    var selected := Selected(ungrouped, begin, length);
    var remaining := Remaining(ungrouped, begin, length);
    SelectedRemaining(ungrouped, begin, length);
    var added := Group(|groups|, Some(title), Some(fullWidthTitle), selected);
    assert AddGroup(groups, begin, length, title, fullWidthTitle).value.value == Regrouped(groups, u, remaining, added);
    RegroupedResult(groups, u, remaining, added);
  }

  // ------------------------------------------------------------ deleteGroup

  /** `groups.findIndex(g => g.index === index)`. */
  function FindIndex(groups: seq<Group>, index: int): (r: Option<nat>)
    ensures r.Some? ==>
      r.value < |groups| && groups[r.value].index == index
      && forall k :: 0 <= k < r.value ==> groups[k].index != index
    ensures r.None? ==> forall k :: 0 <= k < |groups| ==> groups[k].index != index
  {
    if groups == [] then None
    else if groups[0].index == index then Some(0)
    else
      match FindIndex(groups[1..], index)
      case None => None
      case Some(k) => Some(k + 1)
  }

  /** The untitled group `deleteGroup` creates when the disc has none. */
  function EmptyUngrouped(): Group {
    Group(-1, None, None, [])
  }

  /** The group list with an ungrouped group, and that group's position. */
  function WithUngrouped(groups: seq<Group>): (r: (seq<Group>, nat))
    ensures r.1 < |r.0| && r.0[r.1].title.None?
    ensures Bag(r.0) == Bag(groups)
  {
    match FirstUntitled(groups)
    case Some(u) => (groups, u)
    case None =>
      BagConcat([EmptyUngrouped()], groups);
      BagSingle(EmptyUngrouped());
      ([EmptyUngrouped()] + groups, 0)
  }

  /**
   * `deleteGroup` of the interface service: the group with that index is
   * spliced out and its tracks join the ungrouped group, which is then
   * sorted by index. When the deleted group is the ungrouped group itself,
   * the merge lands on the removed group and the list only loses it.
   */
  function DeleteGroup(groups: seq<Group>, index: int): seq<Group> {
    var w := WithUngrouped(groups);
    match FindIndex(w.0, index)
    case None => w.0
    case Some(p) => if p == w.1 then RemoveAt(w.0, p) else MergeInto(w.0, w.1, p)
  }

  /** Group `p` is spliced out after its tracks join group `u`, sorted by index. */
  function MergeInto(gs: seq<Group>, u: nat, p: nat): seq<Group>
    requires u < |gs| && p < |gs|
  {
    RemoveAt(gs[u := MergedGroup(gs, u, p)], p)
  }

  /** Group `u` with group `p`'s tracks added, sorted by index. */
  function MergedGroup(gs: seq<Group>, u: nat, p: nat): (r: Group)
    requires u < |gs| && p < |gs|
    ensures r.title == gs[u].title && SortedBy(r.tracks, TrackKey)
    ensures multiset(r.tracks) == multiset(gs[u].tracks) + multiset(gs[p].tracks)
  {
    gs[u].(tracks := SortBy(gs[u].tracks + gs[p].tracks, TrackKey))
  }

  /** Where group `u` sits once group `p` is gone. */
  function ShiftedPosition(u: nat, p: nat): nat
    requires u != p
  {
    if u < p then u else u - 1
  }

  lemma MergeIntoAsUpdate(gs: seq<Group>, u: nat, p: nat)
    requires u < |gs| && p < |gs| && u != p
    ensures ShiftedPosition(u, p) < |RemoveAt(gs, p)|
    ensures RemoveAt(gs, p)[ShiftedPosition(u, p)] == gs[u]
    ensures MergeInto(gs, u, p) == RemoveAt(gs, p)[ShiftedPosition(u, p) := MergedGroup(gs, u, p)]
  {
    RemoveAtUpdate(gs, u, p, MergedGroup(gs, u, p));
  }

  /** Updating a position and then removing another is removing first and updating where the position moved. */
  lemma RemoveAtUpdate<T>(s: seq<T>, u: nat, p: nat, x: T)
    requires u < |s| && p < |s| && u != p
    ensures ShiftedPosition(u, p) < |RemoveAt(s, p)|
    ensures RemoveAt(s, p)[ShiftedPosition(u, p)] == s[u]
    ensures RemoveAt(s[u := x], p) == RemoveAt(s, p)[ShiftedPosition(u, p) := x]
  {
    var a, b := RemoveAt(s[u := x], p), RemoveAt(s, p)[ShiftedPosition(u, p) := x];
    forall i | 0 <= i < |a|
      ensures a[i] == b[i]
    {
      if i < p {
        assert a[i] == s[u := x][i];
      } else {
        assert a[i] == s[u := x][i + 1];
      }
    }
  }

  lemma MergeIntoBag(gs: seq<Group>, u: nat, p: nat)
    requires u < |gs| && p < |gs| && u != p
    ensures Bag(MergeInto(gs, u, p)) == Bag(gs)
  {
    var rest, v, merged := RemoveAt(gs, p), ShiftedPosition(u, p), MergedGroup(gs, u, p);
    MergeIntoAsUpdate(gs, u, p);
    BagUpdate(rest, v, merged);
    BagRemove(rest, v);
    BagRemove(gs, p);
    calc {
      Bag(MergeInto(gs, u, p));
      Bag(RemoveAt(rest, v)) + multiset(merged.tracks);
      Bag(RemoveAt(rest, v)) + multiset(gs[u].tracks) + multiset(gs[p].tracks);
      Bag(rest) + multiset(gs[p].tracks);
      Bag(gs);
    }
  }

  lemma MergeIntoResult(gs: seq<Group>, u: nat, p: nat)
    requires u < |gs| && p < |gs| && u != p && gs[u].title.None?
    ensures var r := MergeInto(gs, u, p);
      && Bag(r) == Bag(gs)
      && |r| == |gs| - 1
      && exists v :: 0 <= v < |r| && r[v].title.None? && SortedBy(r[v].tracks, TrackKey)
           && multiset(gs[p].tracks) <= multiset(r[v].tracks)
  {
    MergeIntoBag(gs, u, p);
    MergeIntoAsUpdate(gs, u, p);
    var v := ShiftedPosition(u, p);
    assert MergeInto(gs, u, p)[v] == MergedGroup(gs, u, p);
  }

  lemma FindIndexCons(g: Group, groups: seq<Group>, index: int)
    requires g.index != index
    ensures FindIndex([g] + groups, index) ==
      (if FindIndex(groups, index).Some? then Some(FindIndex(groups, index).value + 1) else None)
  {
    var s := [g] + groups;
    var rest := FindIndex(groups, index);
    assert FindIndex(s, index) == (match rest case None => None case Some(k) => Some(k + 1)) by {
      assert s != [] && s[0] == g && s[1..] == groups;
    }
  }

  /** Deleting an index no group has only ensures an ungrouped group exists. */
  lemma DeleteGroupUnknown(groups: seq<Group>, index: int)
    requires FindIndex(groups, index).None?
    ensures Bag(DeleteGroup(groups, index)) == Bag(groups)
    ensures FirstUntitled(groups).Some? ==> DeleteGroup(groups, index) == groups
    ensures DeleteGroup(groups, index) == groups || DeleteGroup(groups, index) == [EmptyUngrouped()] + groups
  {
    var w := WithUngrouped(groups);
    if FirstUntitled(groups).None? {
      if index == -1 {
        assert FindIndex(w.0, index) == Some(0);
        assert RemoveAt(w.0, 0) == groups;
      } else {
        FindIndexCons(EmptyUngrouped(), groups, index);
      }
    }
  }

  /**
   * Deleting a titled group keeps every track on the disc: its tracks move
   * to the ungrouped group, which ends up sorted by index, and the list
   * loses one group. (With no ungrouped group, index -1 names the
   * placeholder created at the front, which is what gets removed.)
   */
  lemma DeleteGroupTitled(groups: seq<Group>, index: int)
    requires FindIndex(groups, index).Some?
    requires FirstUntitled(groups).Some? || index != -1
    requires groups[FindIndex(groups, index).value].title.Some?
    ensures var r := DeleteGroup(groups, index);
      && Bag(r) == Bag(groups)
      && |r| == |WithUngrouped(groups).0| - 1
      && exists u :: 0 <= u < |r| && r[u].title.None? && SortedBy(r[u].tracks, TrackKey)
           && multiset(groups[FindIndex(groups, index).value].tracks) <= multiset(r[u].tracks)
  {
    var w := WithUngrouped(groups);
    var gs, u := w.0, w.1;
    var q := FindIndex(groups, index).value;
    if FirstUntitled(groups).None? {
      FindIndexCons(EmptyUngrouped(), groups, index);
    }
    var p := FindIndex(gs, index).value;
    assert gs[p] == groups[q];
    MergeIntoResult(gs, u, p);
  }

  /** `deleteGroup` of the older service: the group is spliced out with its tracks. */
  function DeleteGroupOnly(groups: seq<Group>, index: int): seq<Group> {
    match FindIndex(groups, index)
    case None => groups
    case Some(p) => RemoveAt(groups, p)
  }

  /** The older `deleteGroup` drops the deleted group's tracks from the cached list. */
  lemma DeleteGroupOnlyDropsTracks(groups: seq<Group>, index: int)
    ensures FindIndex(groups, index).None? ==> DeleteGroupOnly(groups, index) == groups
    ensures FindIndex(groups, index).Some? ==>
      Bag(DeleteGroupOnly(groups, index)) + multiset(groups[FindIndex(groups, index).value].tracks) == Bag(groups)
  {
    if FindIndex(groups, index).Some? {
      BagRemove(groups, FindIndex(groups, index).value);
    }
  }

  // ------------------------------------------------------------ renameGroup / renameTrack

  /**
   * `renameGroup`: the first group with that index gets the new title, and
   * the new full-width title when one is given; `None` when no group has
   * the index (the method returns without writing).
   */
  function RenameGroup(groups: seq<Group>, groupIndex: int, newName: string, newFullWidthName: Option<string>): Option<seq<Group>> {
    match FindIndex(groups, groupIndex)
    case None => None
    case Some(p) =>
      var g := groups[p];
      Some(groups[p := g.(title := Some(newName), fullWidthTitle := if newFullWidthName.Some? then newFullWidthName else g.fullWidthTitle)])
  }

  /** Renaming touches one group's titles and nothing else. */
  lemma RenameGroupEffect(groups: seq<Group>, groupIndex: int, newName: string, newFullWidthName: Option<string>)
    ensures var r := RenameGroup(groups, groupIndex, newName, newFullWidthName);
      && (r.None? <==> forall k :: 0 <= k < |groups| ==> groups[k].index != groupIndex)
      && (r.Some? ==>
           && |r.value| == |groups|
           && AllTracks(r.value) == AllTracks(groups)
           && exists p :: 0 <= p < |groups| && groups[p].index == groupIndex
                && r.value[p].title == Some(newName)
                && (newFullWidthName.Some? ==> r.value[p].fullWidthTitle == newFullWidthName)
                && (newFullWidthName.None? ==> r.value[p].fullWidthTitle == groups[p].fullWidthTitle)
                && r.value[p].tracks == groups[p].tracks && r.value[p].index == groups[p].index
                && forall k :: 0 <= k < |groups| && k != p ==> r.value[k] == groups[k])
  {
    if FindIndex(groups, groupIndex).Some? {
      var p := FindIndex(groups, groupIndex).value;
      var r := RenameGroup(groups, groupIndex, newName, newFullWidthName).value;
      SameTracksSameAll(r, groups);
    }
  }

  /** Group lists whose groups hold the same tracks list the same tracks. */
  lemma {:induction false} SameTracksSameAll(a: seq<Group>, b: seq<Group>)
    requires |a| == |b|
    requires forall k :: 0 <= k < |a| ==> a[k].tracks == b[k].tracks
    ensures AllTracks(a) == AllTracks(b)
  {
    if a != [] {
      SameTracksSameAll(a[..|a| - 1], b[..|b| - 1]);
    }
  }

  /** A track after `renameTrack`: the new title, and the full-width one when given. */
  function RetitledTrack(t: Track, index: int, title: string, fullWidthTitle: Option<string>): Track {
    if t.index == index then
      t.(title := Some(title), fullWidthTitle := if fullWidthTitle.Some? then fullWidthTitle else t.fullWidthTitle)
    else t
  }

  function RetitledGroup(g: Group, index: int, title: string, fullWidthTitle: Option<string>): (r: Group)
    ensures |r.tracks| == |g.tracks|
  {
    g.(tracks := seq(|g.tracks|, j requires 0 <= j < |g.tracks| => RetitledTrack(g.tracks[j], index, title, fullWidthTitle)))
  }

  /** The cached groups after `renameTrack`: every track with that index is retitled. */
  function RetitledGroups(groups: seq<Group>, index: int, title: string, fullWidthTitle: Option<string>): (r: seq<Group>)
    ensures |r| == |groups|
  {
    seq(|groups|, k requires 0 <= k < |groups| => RetitledGroup(groups[k], index, title, fullWidthTitle))
  }

  /**
   * After `renameTrack` every cached track with that index carries the new
   * titles, every other track and every group field is unchanged, and
   * renaming again with the same titles changes nothing more.
   */
  lemma RetitledGroupsEffect(groups: seq<Group>, index: int, title: string, fullWidthTitle: Option<string>)
    ensures var r := RetitledGroups(groups, index, title, fullWidthTitle);
      && (forall k :: 0 <= k < |groups| ==>
           && |r[k].tracks| == |groups[k].tracks|
           && r[k].(tracks := groups[k].tracks) == groups[k]
           && forall j :: 0 <= j < |groups[k].tracks| ==>
                var t, t' := groups[k].tracks[j], r[k].tracks[j];
                && (t.index == index ==> t'.title == Some(title) && t' == t.(title := t'.title, fullWidthTitle := t'.fullWidthTitle))
                && (t.index == index && fullWidthTitle.Some? ==> t'.fullWidthTitle == fullWidthTitle)
                && (t.index != index || fullWidthTitle.None? ==> t'.fullWidthTitle == t.fullWidthTitle)
                && (t.index != index ==> t' == t))
      && RetitledGroups(r, index, title, fullWidthTitle) == r
  {
    var r := RetitledGroups(groups, index, title, fullWidthTitle);
    var rr := RetitledGroups(r, index, title, fullWidthTitle);
    forall k | 0 <= k < |groups| ensures rr[k] == r[k] {
      assert rr[k].tracks == r[k].tracks;
    }
  }

  // ------------------------------------------------------------ moveTrack cache update

  /** `moveTrack`'s cache update of one track: indexes `src` and `dst` trade places. */
  function SwappedTrack(t: Track, src: int, dst: int): Track {
    if t.index == dst then t.(index := src)
    else if t.index == src then t.(index := dst)
    else t
  }

  /** The swap applied to every track of a list, in place. */
  function SwappedTracks(tracks: seq<Track>, src: int, dst: int): (r: seq<Track>)
    ensures |r| == |tracks|
  {
    seq(|tracks|, j requires 0 <= j < |tracks| => SwappedTrack(tracks[j], src, dst))
  }

  /** One group after the swap, re-sorted by index. */
  function SwappedGroup(g: Group, src: int, dst: int): Group {
    g.(tracks := SortBy(SwappedTracks(g.tracks, src, dst), TrackKey))
  }

  function SwappedGroups(groups: seq<Group>, src: int, dst: int): (r: seq<Group>)
    ensures |r| == |groups|
  {
    seq(|groups|, k requires 0 <= k < |groups| => SwappedGroup(groups[k], src, dst))
  }

  /** The swap is its own inverse. */
  lemma SwappedTrackInvolution(t: Track, src: int, dst: int)
    ensures SwappedTrack(SwappedTrack(t, src, dst), src, dst) == t
  {
  }

  lemma SwappedTracksMembership(tracks: seq<Track>, src: int, dst: int)
    ensures forall t :: t in SwappedTracks(tracks, src, dst) <==> SwappedTrack(t, src, dst) in tracks
  {
    var mapped := SwappedTracks(tracks, src, dst);
    forall t ensures t in mapped <==> SwappedTrack(t, src, dst) in tracks {
      if t in mapped {
        var j :| 0 <= j < |mapped| && mapped[j] == t;
        SwappedTrackInvolution(tracks[j], src, dst);
      }
      if SwappedTrack(t, src, dst) in tracks {
        var j :| 0 <= j < |tracks| && tracks[j] == SwappedTrack(t, src, dst);
        SwappedTrackInvolution(t, src, dst);
        assert mapped[j] == t;
      }
    }
  }

  /**
   * After the swap a group holds exactly the tracks whose swapped-back
   * version it held before, sorted by index; its other fields are untouched.
   */
  lemma SwappedGroupEffect(g: Group, src: int, dst: int)
    ensures var r := SwappedGroup(g, src, dst);
      && r.(tracks := g.tracks) == g
      && SortedBy(r.tracks, TrackKey)
      && |r.tracks| == |g.tracks|
      && forall t :: t in r.tracks <==> SwappedTrack(t, src, dst) in g.tracks
  {
    var mapped := SwappedTracks(g.tracks, src, dst);
    var sorted := SortBy(mapped, TrackKey);
    SwappedTracksMembership(g.tracks, src, dst);
    forall t ensures t in sorted <==> t in mapped {
      assert t in sorted <==> t in multiset(sorted);
      assert t in mapped <==> t in multiset(mapped);
    }
  }

  /** `moveTrack`'s cache update, group by group. */
  lemma SwappedGroupsEffect(groups: seq<Group>, src: int, dst: int)
    ensures var r := SwappedGroups(groups, src, dst);
      forall k :: 0 <= k < |groups| ==>
        && r[k].(tracks := groups[k].tracks) == groups[k]
        && SortedBy(r[k].tracks, TrackKey)
        && |r[k].tracks| == |groups[k].tracks|
        && forall t :: t in r[k].tracks <==> SwappedTrack(t, src, dst) in groups[k].tracks
  {
    forall k | 0 <= k < |groups| {
      SwappedGroupEffect(groups[k], src, dst);
    }
  }

  // ------------------------------------------------------------ deleteTracks order

  function Identity(x: int): int { x }

  /** `indexes.sort((a, b) => a - b); indexes.reverse()`: largest index first. */
  function DescendingIndexes(indexes: seq<int>): (r: seq<int>)
    ensures |r| == |indexes|
  {
    Reverse(SortBy(indexes, Identity))
  }

  /**
   * The indexes are erased from the largest down, so erasing one never
   * moves a track still to be erased; every requested index is erased
   * as often as it was requested.
   */
  lemma DescendingIndexesOrder(indexes: seq<int>)
    ensures var r := DescendingIndexes(indexes);
      && (forall i, j :: 0 <= i < j < |r| ==> r[i] >= r[j])
      && multiset(r) == multiset(indexes)
  {
    var s := SortBy(indexes, Identity);
    ReverseMultiset(s);
    var r := DescendingIndexes(indexes);
    assert SortedBy(s, Identity);
    forall i, j | 0 <= i < j < |r| ensures r[i] >= r[j] {
      var a, b := |s| - 1 - j, |s| - 1 - i;
      assert 0 <= a < b < |s|;
      assert Identity(s[a]) <= Identity(s[b]);
    }
  }
}
