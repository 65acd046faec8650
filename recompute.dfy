/**
 * `recomputeGroupsAfterTrackMove` (src/wmd/original/utils.ts): after a track
 * moves from `trackIndex` to `targetIndex`, or is deleted (`targetIndex` is
 * -1), shift the first and last index of every titled group that the move
 * crosses, rebuild the groups from the index-ordered tracks and gather the
 * tracks no group covers into a leading untitled group.
 *
 * The source recognises "not grouped" by object identity
 * (`allGrouped.includes(n)`); the tracks of the disc are distinct objects and
 * every rebuilt group is a slice of `allTracks`, so the model says the same
 * by position in `allTracks`.
 */
module GroupRecompute {
  import opened Common
  import opened Sorting
  import opened DiscModel

  /** A titled group reduced to its name and its first and last track index. */
  datatype Boundary = Boundary(name: string, fullWidthName: Option<string>, start: int, end: int)

  function Min(a: int, b: int): int { if a <= b then a else b }

  function Max(a: int, b: int): int { if a >= b then a else b }

  /** `filter(n => !deleteMode || n.index !== trackIndex)`. */
  function DropIndex(s: seq<Track>, drop: Option<int>): (r: seq<Track>)
    ensures forall t :: t in r <==> t in s && (drop.None? || t.index != drop.value)
    ensures drop.None? ==> r == s
  {
    if s == [] then []
    else
      var init := s[..|s| - 1];
      var last := s[|s| - 1];
      assert s == init + [last];
      DropIndex(init, drop) + (if drop.None? || last.index != drop.value then [last] else [])
  }

  /** The filter keeps every other track as often as it occurs, and drops every copy of the deleted index. */
  lemma {:induction false} DropIndexMultiset(s: seq<Track>, drop: Option<int>)
    ensures forall t :: multiset(DropIndex(s, drop))[t] == if drop.None? || t.index != drop.value then multiset(s)[t] else 0
  {
    if s != [] {
      var init := s[..|s| - 1];
      var last := s[|s| - 1];
      assert s == init + [last];
      assert multiset(s) == multiset(init) + multiset{last};
      DropIndexMultiset(init, drop);
    }
  }

  /** Filtering keeps a sorted sequence sorted. */
  lemma {:induction false} DropIndexSorted(s: seq<Track>, drop: Option<int>)
    requires SortedBy(s, TrackKey)
    ensures SortedBy(DropIndex(s, drop), TrackKey)
  {
    if s != [] {
      var init := s[..|s| - 1];
      var last := s[|s| - 1];
      assert SortedBy(init, TrackKey);
      DropIndexSorted(init, drop);
      var d := DropIndex(init, drop);
      forall t | t in d ensures t.index <= last.index {
        var k :| 0 <= k < |init| && init[k] == t;
        assert s[k] == t;
      }
      if drop.None? || last.index != drop.value {
        SortedSnoc(d, last);
      } else {
        assert DropIndex(s, drop) == d;
      }
    }
  }

  lemma SortedSnoc(d: seq<Track>, last: Track)
    requires SortedBy(d, TrackKey)
    requires forall t :: t in d ==> t.index <= last.index
    ensures SortedBy(d + [last], TrackKey)
  {
    var r := d + [last];
    forall i, j | 0 <= i < j < |r| ensures r[i].index <= r[j].index {
      assert r[i] == d[i];
      if j < |d| {
        assert r[j] == d[j];
      } else {
        assert d[i] in d;
      }
    }
  }

  /** `allTracks`: every track of the disc ordered by index, the deleted index left out. */
  function OrderedTracks(disc: Disc, trackIndex: int, deleteMode: bool): (r: seq<Track>)
    ensures SortedBy(r, TrackKey)
    ensures forall t :: t in r <==> t in AllTracks(disc.groups) && (!deleteMode || t.index != trackIndex)
  {
    var sorted := SortBy(AllTracks(disc.groups), TrackKey);
    assert forall t :: t in sorted <==> t in AllTracks(disc.groups) by {
      forall t ensures t in sorted <==> t in AllTracks(disc.groups) {
        assert t in sorted <==> t in multiset(sorted);
      }
    }
    DropIndexSorted(sorted, if deleteMode then Some(trackIndex) else None);
    DropIndex(sorted, if deleteMode then Some(trackIndex) else None)
  }

  /** `allTracks` holds every track of the disc as often as the disc does, except those with the deleted index. */
  lemma OrderedTracksMultiset(disc: Disc, trackIndex: int, deleteMode: bool)
    ensures forall t :: multiset(OrderedTracks(disc, trackIndex, deleteMode))[t] ==
                        (if !deleteMode || t.index != trackIndex then multiset(AllTracks(disc.groups))[t] else 0)
  {
    DropIndexMultiset(SortBy(AllTracks(disc.groups), TrackKey), if deleteMode then Some(trackIndex) else None);
  }

  function BoundaryOf(g: Group): Boundary
    requires g.title.Some? && |g.tracks| > 0
  {
    Boundary(g.title.value, g.fullWidthTitle, g.tracks[0].index, g.tracks[0].index + |g.tracks| - 1)
  }

  /** Every group of `gs` is titled and holds a track. */
  predicate AllTitledNonEmpty(gs: seq<Group>) {
    forall j :: 0 <= j < |gs| ==> gs[j].title.Some? && |gs[j].tracks| > 0
  }

  function BoundariesOf(gs: seq<Group>): (r: seq<Boundary>)
    requires AllTitledNonEmpty(gs)
    ensures |r| == |gs|
  {
    seq(|gs|, k requires 0 <= k < |gs| => BoundaryOf(gs[k]))
  }

  lemma TitledNonEmptyTitled(groups: seq<Group>)
    requires TitledNonEmpty(groups)
    ensures AllTitledNonEmpty(Titled(groups))
  {
    var titled := Titled(groups);
    forall j | 0 <= j < |titled|
      ensures titled[j].title.Some? && |titled[j].tracks| > 0
    {
      assert titled[j] in titled;
    }
  }

  /** The tracks of a group carry consecutive indexes. */
  predicate Consecutive(tracks: seq<Track>) {
    forall i :: 0 <= i < |tracks| ==> tracks[i].index == tracks[0].index + i
  }

  /** `groupBoundaries`: one boundary per titled group, in disc order. */
  function InitialBoundaries(groups: seq<Group>): (r: seq<Boundary>)
    requires TitledNonEmpty(groups)
    ensures |r| == |Titled(groups)|
  {
    TitledNonEmptyTitled(groups);
    BoundariesOf(Titled(groups))
  }

  /**
   * Boundary `k` carries the title of the `k`-th titled group of the disc,
   * starts at its first track index and spans as many indexes as the group
   * has tracks; for a group numbered consecutively it ends at its last
   * track's index.
   */
  lemma InitialBoundariesSpan(groups: seq<Group>, k: nat)
    requires TitledNonEmpty(groups) && k < |Titled(groups)| && k < |TitledPositions(groups)|
    ensures var r := InitialBoundaries(groups);
      var g := groups[TitledPositions(groups)[k]];
      && g.title == Some(r[k].name) && g.fullWidthTitle == r[k].fullWidthName
      && |g.tracks| > 0 && r[k].start == g.tracks[0].index
      && r[k].end - r[k].start + 1 == |g.tracks|
      && (Consecutive(g.tracks) ==> r[k].end == g.tracks[|g.tracks| - 1].index)
  {
    TitledAtPositions(groups);
    var g := groups[TitledPositions(groups)[k]];
    assert g == Titled(groups)[k];
    assert g in Titled(groups);
  }

  /** The first track index of a group moves when it lies in `(lo, hi]`. */
  predicate StartShifts(b: Boundary, lo: int, hi: int) { lo < b.start <= hi }

  /** The last track index of a group moves when it lies in `[lo, hi)`. */
  predicate EndShifts(b: Boundary, lo: int, hi: int) { lo <= b.end < hi }

  function Shifted(b: Boundary, lo: int, hi: int, offset: int): Boundary {
    b.(start := if StartShifts(b, lo, hi) then b.start + offset else b.start,
       end := if EndShifts(b, lo, hi) then b.end + offset else b.end)
  }

  predicate AnyShifts(bs: seq<Boundary>, lo: int, hi: int) {
    exists k :: 0 <= k < |bs| && (StartShifts(bs[k], lo, hi) || EndShifts(bs[k], lo, hi))
  }

  function ShiftAll(bs: seq<Boundary>, lo: int, hi: int, offset: int): (r: seq<Boundary>)
    ensures |r| == |bs|
  {
    seq(|bs|, k requires 0 <= k < |bs| => Shifted(bs[k], lo, hi, offset))
  }

  /** Where `Array.prototype.slice` starts or stops for argument `i`. */
  function SliceIndex(len: nat, i: int): (r: nat)
    ensures r <= len
  {
    if i < 0 then (if len + i < 0 then 0 else len + i) else if i > len then len else i
  }

  /** `s.slice(a, b)`: negative arguments count from the end, both are clamped. */
  function JsSlice<T>(s: seq<T>, a: int, b: int): seq<T> {
    var from, to := SliceIndex(|s|, a), SliceIndex(|s|, b);
    if from < to then s[from..to] else []
  }

  /** Position `p` of `allTracks` falls in the slice a boundary takes. */
  predicate Covers(b: Boundary, len: nat, p: int) {
    SliceIndex(len, b.start) <= p < SliceIndex(len, b.end + 1)
  }

  function RebuiltGroup(b: Boundary, tracks: seq<Track>): Group {
    Group(b.start, Some(b.name), b.fullWidthName, JsSlice(tracks, b.start, b.end + 1))
  }

  /** The boundaries turned back into groups, the empty ones dropped. */
  function RebuiltGroups(bs: seq<Boundary>, tracks: seq<Track>): seq<Group>
  {
    if bs == [] then []
    else
      var g := RebuiltGroup(bs[|bs| - 1], tracks);
      RebuiltGroups(bs[..|bs| - 1], tracks) + (if |g.tracks| > 0 then [g] else [])
  }

  /** Every rebuilt group is titled and holds a track. */
  lemma {:induction false} RebuiltGroupsTitled(bs: seq<Boundary>, tracks: seq<Track>)
    ensures forall g :: g in RebuiltGroups(bs, tracks) ==> |g.tracks| > 0 && g.title.Some?
  {
    if bs != [] {
      RebuiltGroupsTitled(bs[..|bs| - 1], tracks);
    }
  }

  predicate CoveredByAny(bs: seq<Boundary>, len: nat, p: int) {
    exists b :: b in bs && Covers(b, len, p)
  }

  /** The tracks among the first `n` positions that no boundary covers, in order. */
  function Uncovered(tracks: seq<Track>, bs: seq<Boundary>, n: nat): seq<Track>
    requires n <= |tracks|
  {
    if n == 0 then []
    else Uncovered(tracks, bs, n - 1) + (if CoveredByAny(bs, |tracks|, n - 1) then [] else [tracks[n - 1]])
  }

  /** `Uncovered` holds the tracks at uncovered positions below `n`, and nothing else. */
  lemma {:induction false} UncoveredMembership(tracks: seq<Track>, bs: seq<Boundary>, n: nat)
    requires n <= |tracks|
    ensures forall t :: t in Uncovered(tracks, bs, n) ==>
      exists p :: 0 <= p < n && !CoveredByAny(bs, |tracks|, p) && t == tracks[p]
    ensures forall p :: 0 <= p < n && !CoveredByAny(bs, |tracks|, p) ==> tracks[p] in Uncovered(tracks, bs, n)
  {
    if n > 0 {
      UncoveredMembership(tracks, bs, n - 1);
    }
  }

  /** `allTracks[i].index = i` for every position. */
  function Renumbered(tracks: seq<Track>): (r: seq<Track>)
    ensures |r| == |tracks|
  {
    seq(|tracks|, i requires 0 <= i < |tracks| => tracks[i].(index := i))
  }

  /** Everything the recomputation derives from its arguments before rebuilding. */
  datatype Plan = Plan(
    deleteMode: bool,
    offset: int,
    lo: int,
    hi: int,
    bounds: seq<Boundary>,
    shifted: seq<Boundary>,
    ordered: seq<Track>,
    tracks: seq<Track>)

  function PlanFor(disc: Disc, trackIndex: int, targetIndex: int): (p: Plan)
    requires TitledNonEmpty(disc.groups)
    ensures |p.shifted| == |p.bounds| == |Titled(disc.groups)|
    ensures |p.tracks| == |p.ordered|
  {
    var deleteMode := targetIndex == -1;
    var offset := if deleteMode then -1 else if trackIndex > targetIndex then 1 else -1;
    var target := if deleteMode then disc.trackCount else targetIndex;
    var lo, hi := Min(trackIndex, target), Max(trackIndex, target);
    var bounds := InitialBoundaries(disc.groups);
    var ordered := OrderedTracks(disc, trackIndex, deleteMode);
    Plan(deleteMode, offset, lo, hi, bounds, ShiftAll(bounds, lo, hi, offset), ordered,
         if deleteMode then Renumbered(ordered) else ordered)
  }

  /** The tracks no boundary covers. */
  function Leftover(bs: seq<Boundary>, tracks: seq<Track>): seq<Track> {
    Uncovered(tracks, bs, |tracks|)
  }

  /** The untitled group of the leftover tracks, when there are any. */
  function LeadGroups(leftover: seq<Track>): (r: seq<Group>)
    ensures |r| <= 1
  {
    if |leftover| > 0 then [Group(0, None, None, leftover)] else []
  }

  /** The groups the recomputation produces once some boundary has moved. */
  function RebuiltDiscGroups(bs: seq<Boundary>, tracks: seq<Track>): seq<Group> {
    LeadGroups(Leftover(bs, tracks)) + RebuiltGroups(bs, tracks)
  }

  /** The disc `recomputeGroupsAfterTrackMove` returns. */
  function Recomputed(disc: Disc, trackIndex: int, targetIndex: int): (r: Disc)
    requires TitledNonEmpty(disc.groups)
    ensures r == disc.(groups := r.groups)
    ensures TitledNonEmpty(r.groups)
  {
    var p := PlanFor(disc, trackIndex, targetIndex);
    if !AnyShifts(p.bounds, p.lo, p.hi) then disc
    else
      RebuiltGroupsTitled(p.shifted, p.tracks);
      disc.(groups := RebuiltDiscGroups(p.shifted, p.tracks))
  }

  /** The shifting loop: moves the boundaries the move crosses and reports whether any moved. */
  method ShiftBoundaries(bounds: seq<Boundary>, boundsStart: int, boundsEnd: int, offset: int)
    returns (groupBoundaries: seq<Boundary>, anyChanges: bool)
    ensures groupBoundaries == ShiftAll(bounds, boundsStart, boundsEnd, offset)
    ensures anyChanges <==> AnyShifts(bounds, boundsStart, boundsEnd)
  {
    groupBoundaries := bounds;
    anyChanges := false;
    for i := 0 to |groupBoundaries|
      invariant |groupBoundaries| == |bounds|
      invariant forall k :: 0 <= k < i ==> groupBoundaries[k] == Shifted(bounds[k], boundsStart, boundsEnd, offset)
      invariant forall k :: i <= k < |bounds| ==> groupBoundaries[k] == bounds[k]
      invariant anyChanges <==> AnyShifts(bounds[..i], boundsStart, boundsEnd)
    {
      var group := groupBoundaries[i];
      if group.start > boundsStart && group.start <= boundsEnd {
        group := group.(start := group.start + offset);
        anyChanges := true;
      }
      if group.end >= boundsStart && group.end < boundsEnd {
        group := group.(end := group.end + offset);
        anyChanges := true;
      }
      groupBoundaries := groupBoundaries[i := group];
      assert bounds[..i + 1] == bounds[..i] + [bounds[i]];
    }
    assert bounds[..|bounds|] == bounds;
  }

  /** The renumbering loop of delete mode: each track takes its position as index. */
  method RenumberTracks(allTracks: seq<Track>) returns (r: seq<Track>)
    ensures r == Renumbered(allTracks)
  {
    r := allTracks;
    for i := 0 to |r|
      invariant |r| == |allTracks|
      invariant forall k :: 0 <= k < i ==> r[k] == allTracks[k].(index := k)
      invariant forall k :: i <= k < |r| ==> r[k] == allTracks[k]
    {
      r := r[i := r[i].(index := i)];
    }
  }

  /** `recomputeGroupsAfterTrackMove`. */
  method RecomputeGroupsAfterTrackMove(disc: Disc, trackIndex: int, targetIndex: int) returns (r: Disc)
    requires TitledNonEmpty(disc.groups)
    ensures r == Recomputed(disc, trackIndex, targetIndex)
  {
    var offset := if trackIndex > targetIndex then 1 else -1;
    var deleteMode := targetIndex == -1;
    var target := targetIndex;
    if deleteMode {
      offset := -1;
      target := disc.trackCount;
    }
    var boundsStart, boundsEnd := Min(trackIndex, target), Max(trackIndex, target);
    var allTracks := OrderedTracks(disc, trackIndex, deleteMode);
    var bounds := InitialBoundaries(disc.groups);
    var groupBoundaries, anyChanges := ShiftBoundaries(bounds, boundsStart, boundsEnd, offset);
    ghost var p := PlanFor(disc, trackIndex, targetIndex);
    assert p.bounds == bounds && p.lo == boundsStart && p.hi == boundsEnd && p.offset == offset;
    assert p.ordered == allTracks && p.shifted == groupBoundaries;
    if !anyChanges {
      return disc;
    }
    if deleteMode {
      allTracks := RenumberTracks(allTracks);
    }
    assert p.tracks == allTracks;
    var groups := RebuiltDiscGroups(groupBoundaries, allTracks);
    RecomputeGroupsShape(disc, trackIndex, targetIndex);
    r := disc.(groups := groups);
  }

  // ---------------------------------------------------------------- properties

  /** Nothing crosses the move: the very same disc comes back. */
  lemma RecomputeUnchangedWhenNothingShifts(disc: Disc, trackIndex: int, targetIndex: int)
    requires TitledNonEmpty(disc.groups)
    requires var p := PlanFor(disc, trackIndex, targetIndex); !AnyShifts(p.bounds, p.lo, p.hi)
    ensures Recomputed(disc, trackIndex, targetIndex) == disc
  {
  }

  lemma {:induction false} RebuiltGroupIn(bs: seq<Boundary>, tracks: seq<Track>, b: Boundary)
    requires b in bs && |RebuiltGroup(b, tracks).tracks| > 0
    ensures RebuiltGroup(b, tracks) in RebuiltGroups(bs, tracks)
  {
    var init := bs[..|bs| - 1];
    if bs[|bs| - 1] != b {
      assert bs == init + [bs[|bs| - 1]];
      RebuiltGroupIn(init, tracks, b);
    }
  }

  lemma {:induction false} RebuiltGroupsFrom(bs: seq<Boundary>, tracks: seq<Track>, g: Group)
    requires g in RebuiltGroups(bs, tracks)
    ensures exists b :: b in bs && g == RebuiltGroup(b, tracks)
  {
    var init := bs[..|bs| - 1];
    var last := RebuiltGroup(bs[|bs| - 1], tracks);
    if g != last || |last.tracks| == 0 {
      RebuiltGroupsFrom(init, tracks, g);
      var b :| b in init && g == RebuiltGroup(b, tracks);
      assert bs == init + [bs[|bs| - 1]];
    }
  }

  /** A boundary's slice holds exactly the tracks at the positions it covers. */
  lemma SliceCovers(b: Boundary, tracks: seq<Track>, t: Track)
    ensures t in RebuiltGroup(b, tracks).tracks <==>
      exists i :: 0 <= i < |tracks| && Covers(b, |tracks|, i) && t == tracks[i]
  {
    var from, to := SliceIndex(|tracks|, b.start), SliceIndex(|tracks|, b.end + 1);
    if t in RebuiltGroup(b, tracks).tracks {
      var j :| 0 <= j < |tracks[from..to]| && tracks[from..to][j] == t;
      assert Covers(b, |tracks|, from + j);
    }
    if exists i :: 0 <= i < |tracks| && Covers(b, |tracks|, i) && t == tracks[i] {
      var i :| 0 <= i < |tracks| && Covers(b, |tracks|, i) && t == tracks[i];
      assert tracks[from..to][i - from] == t;
    }
  }

  /**
   * Rebuilt groups are all non-empty, only the first may be untitled, and it
   * is exactly when some track is left uncovered that the first group is an
   * untitled one holding those tracks.
   */
  lemma RebuiltDiscGroupsShape(bs: seq<Boundary>, tracks: seq<Track>)
    ensures var gs := RebuiltDiscGroups(bs, tracks);
      var leftover := Leftover(bs, tracks);
      && (forall g :: g in gs ==> |g.tracks| > 0)
      && (forall k :: 1 <= k < |gs| ==> gs[k].title.Some?)
      && ((|gs| > 0 && gs[0].title.None?) <==> |leftover| > 0)
      && (|leftover| > 0 ==> gs[0] == Group(0, None, None, leftover))
  {
    var gs := RebuiltDiscGroups(bs, tracks);
    var leftover := Leftover(bs, tracks);
    var rebuilt := RebuiltGroups(bs, tracks);
    RebuiltGroupsTitled(bs, tracks);
    if |leftover| > 0 {
      assert gs == [Group(0, None, None, leftover)] + rebuilt;
      forall k | 1 <= k < |gs| ensures gs[k].title.Some? {
        assert gs[k] == rebuilt[k - 1];
        assert rebuilt[k - 1] in rebuilt;
      }
    } else {
      assert gs == rebuilt;
      forall k | 0 <= k < |gs| ensures gs[k].title.Some? {
        assert gs[k] in rebuilt;
      }
    }
  }

  /** After a move that shifts some group, the groups are those rebuilt from the shifted boundaries. */
  lemma RecomputeGroupsShape(disc: Disc, trackIndex: int, targetIndex: int)
    requires TitledNonEmpty(disc.groups)
    requires var p := PlanFor(disc, trackIndex, targetIndex); AnyShifts(p.bounds, p.lo, p.hi)
    ensures var p := PlanFor(disc, trackIndex, targetIndex);
      Recomputed(disc, trackIndex, targetIndex).groups == RebuiltDiscGroups(p.shifted, p.tracks)
  {
  }

  /** The positions of the boundaries whose group survives. */
  function KeptIndices(bs: seq<Boundary>, tracks: seq<Track>): (ks: seq<nat>)
    ensures forall k :: 0 <= k < |ks| ==> ks[k] < |bs|
  {
    if bs == [] then []
    else
      KeptIndices(bs[..|bs| - 1], tracks)
        + (if |RebuiltGroup(bs[|bs| - 1], tracks).tracks| > 0 then [|bs| - 1] else [])
  }

  predicate StrictlyIncreasing(ks: seq<nat>) {
    forall i, j :: 0 <= i < j < |ks| ==> ks[i] < ks[j]
  }

  /** The surviving groups are those of the boundaries at strictly increasing positions. */
  lemma {:induction false} RebuiltGroupsOrder(bs: seq<Boundary>, tracks: seq<Track>)
    ensures var ks := KeptIndices(bs, tracks);
      var gs := RebuiltGroups(bs, tracks);
      && |ks| == |gs|
      && StrictlyIncreasing(ks)
      && (forall k :: 0 <= k < |ks| ==> gs[k] == RebuiltGroup(bs[ks[k]], tracks))
  {
    if bs != [] {
      var init := bs[..|bs| - 1];
      RebuiltGroupsOrder(init, tracks);
      var ks' := KeptIndices(init, tracks);
      var ks := KeptIndices(bs, tracks);
      var gs := RebuiltGroups(bs, tracks);
      assert ks[..|ks'|] == ks';
      forall k | 0 <= k < |ks'| ensures gs[k] == RebuiltGroup(bs[ks[k]], tracks) {
        assert bs[ks[k]] == init[ks'[k]];
      }
    }
  }

  /** 1 when the rebuilt groups start with the untitled leftover group, else 0. */
  function LeadCount(bs: seq<Boundary>, tracks: seq<Track>): nat {
    |LeadGroups(Leftover(bs, tracks))|
  }

  /** Whatever precedes the rebuilt groups, they follow it in boundary order. */
  lemma AfterLeadOrder(lead: seq<Group>, bs: seq<Boundary>, tracks: seq<Track>)
    ensures var gs := lead + RebuiltGroups(bs, tracks);
      var ks := KeptIndices(bs, tracks);
      && |gs| == |lead| + |ks|
      && StrictlyIncreasing(ks)
      && (forall k :: 0 <= k < |ks| ==> gs[|lead| + k] == RebuiltGroup(bs[ks[k]], tracks))
  {
    RebuiltGroupsOrder(bs, tracks);
  }

  /** The rebuilt titled groups follow the leftover group, in boundary order. */
  lemma RebuiltDiscGroupsOrder(bs: seq<Boundary>, tracks: seq<Track>)
    ensures var gs := RebuiltDiscGroups(bs, tracks);
      var ks := KeptIndices(bs, tracks);
      var extra := LeadCount(bs, tracks);
      && |gs| == extra + |ks|
      && StrictlyIncreasing(ks)
      && (forall k :: 0 <= k < |ks| ==> gs[extra + k] == RebuiltGroup(bs[ks[k]], tracks))
  {
    AfterLeadOrder(LeadGroups(Leftover(bs, tracks)), bs, tracks);
  }

  /**
   * Group `extra + k` of `groups` is group `ks[k]` of `titled`: same titles,
   * and its first index shifted as the move over `(lo, hi]` demands.
   */
  predicate FollowsTitled(groups: seq<Group>, extra: nat, ks: seq<nat>, titled: seq<Group>, lo: int, hi: int, offset: int)
    requires AllTitledNonEmpty(titled)
  {
    && |groups| == extra + |ks|
    && StrictlyIncreasing(ks)
    && (forall k :: 0 <= k < |ks| ==>
          ks[k] < |titled|
          && groups[extra + k].title == titled[ks[k]].title
          && groups[extra + k].fullWidthTitle == titled[ks[k]].fullWidthTitle
          && groups[extra + k].index == Shifted(BoundaryOf(titled[ks[k]]), lo, hi, offset).start)
  }

  lemma RebuiltFollowsTitled(titled: seq<Group>, tracks: seq<Track>, lo: int, hi: int, offset: int)
    requires AllTitledNonEmpty(titled)
    ensures var bs := ShiftAll(BoundariesOf(titled), lo, hi, offset);
      FollowsTitled(RebuiltDiscGroups(bs, tracks), LeadCount(bs, tracks), KeptIndices(bs, tracks), titled, lo, hi, offset)
  {
    var bs := ShiftAll(BoundariesOf(titled), lo, hi, offset);
    var ks := KeptIndices(bs, tracks);
    var gs := RebuiltDiscGroups(bs, tracks);
    var extra := LeadCount(bs, tracks);
    RebuiltDiscGroupsOrder(bs, tracks);
    forall k | 0 <= k < |ks|
      ensures ks[k] < |titled|
      ensures gs[extra + k].title == titled[ks[k]].title
      ensures gs[extra + k].fullWidthTitle == titled[ks[k]].fullWidthTitle
      ensures gs[extra + k].index == Shifted(BoundaryOf(titled[ks[k]]), lo, hi, offset).start
    {
      assert gs[extra + k] == RebuiltGroup(bs[ks[k]], tracks);
    }
  }

  /**
   * The titled groups after the move are original titled groups, each once,
   * in their original relative order, with the original titles and the
   * shifted first index.
   */
  lemma RecomputeKeepsTitledOrder(disc: Disc, trackIndex: int, targetIndex: int)
    requires TitledNonEmpty(disc.groups)
    requires var p := PlanFor(disc, trackIndex, targetIndex); AnyShifts(p.bounds, p.lo, p.hi)
    ensures AllTitledNonEmpty(Titled(disc.groups))
    ensures var p := PlanFor(disc, trackIndex, targetIndex);
      FollowsTitled(Recomputed(disc, trackIndex, targetIndex).groups, LeadCount(p.shifted, p.tracks),
                    KeptIndices(p.shifted, p.tracks), Titled(disc.groups), p.lo, p.hi, p.offset)
  {
    var p := PlanFor(disc, trackIndex, targetIndex);
    TitledNonEmptyTitled(disc.groups);
    RecomputeGroupsShape(disc, trackIndex, targetIndex);
    RebuiltFollowsTitled(Titled(disc.groups), p.tracks, p.lo, p.hi, p.offset);
  }

  /** Every track position lands in some rebuilt group, and the groups hold nothing else. */
  lemma RebuiltDiscGroupsKeepTracks(bs: seq<Boundary>, tracks: seq<Track>)
    ensures var gs := RebuiltDiscGroups(bs, tracks);
      && (forall i :: 0 <= i < |tracks| ==> exists g :: g in gs && tracks[i] in g.tracks)
      && (forall g, t :: g in gs && t in g.tracks ==> t in tracks)
  {
    var gs := RebuiltDiscGroups(bs, tracks);
    var n := |tracks|;
    var leftover := Leftover(bs, tracks);
    var rebuilt := RebuiltGroups(bs, tracks);
    var head: seq<Group> := if |leftover| > 0 then [Group(0, None, None, leftover)] else [];
    assert gs == head + rebuilt;
    UncoveredMembership(tracks, bs, n);
    forall i | 0 <= i < n
      ensures exists g :: g in gs && tracks[i] in g.tracks
    {
      if CoveredByAny(bs, n, i) {
        var b :| b in bs && Covers(b, n, i);
        SliceCovers(b, tracks, tracks[i]);
        RebuiltGroupIn(bs, tracks, b);
        assert RebuiltGroup(b, tracks) in gs;
      } else {
        assert tracks[i] in leftover;
        assert gs[0] == Group(0, None, None, leftover);
      }
    }
    forall g, t | g in gs && t in g.tracks
      ensures t in tracks
    {
      if g in rebuilt {
        RebuiltGroupsFrom(bs, tracks, g);
        var b :| b in bs && g == RebuiltGroup(b, tracks);
        SliceCovers(b, tracks, t);
      } else {
        assert g == Group(0, None, None, leftover);
      }
    }
  }

  /**
   * Deleting a track (`targetIndex` -1) drops every track with that index
   * and renumbers the remaining ones 0..n-1 in index order; each renumbered
   * track sits in some group and nothing else does.
   */
  lemma RecomputeDeleteRenumbers(disc: Disc, trackIndex: int)
    requires TitledNonEmpty(disc.groups)
    requires var p := PlanFor(disc, trackIndex, -1); AnyShifts(p.bounds, p.lo, p.hi)
    ensures var r := Recomputed(disc, trackIndex, -1);
      var kept := PlanFor(disc, trackIndex, -1).ordered;
      && SortedBy(kept, TrackKey)
      && (forall t :: t in kept <==> t in AllTracks(disc.groups) && t.index != trackIndex)
      && (forall i :: 0 <= i < |kept| ==> exists g :: g in r.groups && kept[i].(index := i) in g.tracks)
      && (forall g, t :: g in r.groups && t in g.tracks ==>
            exists i :: 0 <= i < |kept| && t == kept[i].(index := i))
  {
    var p := PlanFor(disc, trackIndex, -1);
    RecomputeGroupsShape(disc, trackIndex, -1);
    RenumberedGroupsCover(p.ordered, p.shifted);
  }

  /** Rebuilding over renumbered tracks places each renumbered track in some group, and nothing else. */
  lemma RenumberedGroupsCover(ordered: seq<Track>, bs: seq<Boundary>)
    ensures var gs := RebuiltDiscGroups(bs, Renumbered(ordered));
      && (forall i :: 0 <= i < |ordered| ==> exists g :: g in gs && ordered[i].(index := i) in g.tracks)
      && (forall g, t :: g in gs && t in g.tracks ==>
            exists i :: 0 <= i < |ordered| && t == ordered[i].(index := i))
  {
    var tracks := Renumbered(ordered);
    var gs := RebuiltDiscGroups(bs, tracks);
    RebuiltDiscGroupsKeepTracks(bs, tracks);
    forall i | 0 <= i < |ordered|
      ensures exists g :: g in gs && ordered[i].(index := i) in g.tracks
    {
      assert tracks[i] == ordered[i].(index := i);
    }
    forall g, t | g in gs && t in g.tracks
      ensures exists i :: 0 <= i < |ordered| && t == ordered[i].(index := i)
    {
      assert t in tracks;
      var i :| 0 <= i < |tracks| && tracks[i] == t;
      assert t == ordered[i].(index := i);
    }
  }
}
