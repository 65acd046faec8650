/**
 * Helpers of the Web MiniDisc front end (src/wmd/original/utils.ts): time
 * formatting, the sandbox URL scheme, the sequence test used when grouping,
 * and the two views of a disc the track list is drawn from.
 */
module Utils {
  import opened Common
  import opened Strings
  import opened Sorting
  import opened DiscModel

  // ---------------------------------------------------------------- time

  /** `a % 60` as JavaScript computes it: truncated, with the sign of `a`. */
  function JsRemainder60(a: int): (r: int)
    ensures a >= 0 ==> 0 <= r < 60
    ensures a < 0 ==> -60 < r <= 0
    ensures (a - r) % 60 == 0
  {
    if a >= 0 then a % 60 else -((-a) % 60)
  }

  /**
   * `timeToSeekArgs`: splits a whole number of seconds into
   * `[hours, minutes, seconds, frames]`, frames always 0.
   */
  function TimeToSeekArgs(timeInSecs: int): (r: seq<int>)
    ensures |r| == 4 && r[3] == 0
    ensures 3600 * r[0] + 60 * r[1] + r[2] == timeInSecs
    ensures timeInSecs >= 0 ==> r[0] >= 0 && 0 <= r[1] < 60 && 0 <= r[2] < 60
    ensures timeInSecs < 0 ==> r[0] <= 0 && -60 < r[1] <= 0 && -60 < r[2] <= 0
  {
    var s := JsRemainder60(timeInSecs);
    var minutes := (timeInSecs - s) / 60;
    assert timeInSecs == 60 * minutes + s;
    var m := JsRemainder60(minutes);
    var h := (minutes - m) / 60;
    assert minutes == 60 * h + m;
    [h, m, s, 0]
  }

  /** `secondsToNormal`: `[h:]mm:ss`, the hour part only when it is positive. */
  function SecondsToNormal(time: int): string {
    var a := TimeToSeekArgs(time);
    (if a[0] > 0 then IntToString(a[0]) + ":" else "")
      + (PadStart2(IntToString(a[1])) + ":" + PadStart2(IntToString(a[2])))
  }

  function TwoDigits(n: nat): string
    requires n < 100
  {
    [DigitChar(n / 10), DigitChar(n % 10)]
  }

  lemma PadTwoDigits(n: nat)
    requires n < 100
    ensures PadStart2(NatToString(n)) == TwoDigits(n)
  {
    if n < 10 {
      assert NatToString(n) == [DigitChar(n)];
      assert n / 10 == 0 && n % 10 == n;
    } else {
      var hi, lo := n / 10, n % 10;
      assert hi < 10;
      assert NatToString(hi) == [DigitChar(hi)];
      assert NatToString(n) == [DigitChar(hi)] + [DigitChar(lo)];
    }
  }

  /** The shape `[h:]mm:ss` with decimal digits. */
  predicate ClockShape(s: string) {
    |s| >= 5 && s[|s| - 3] == ':'
    && IsDigit(s[|s| - 5]) && IsDigit(s[|s| - 4]) && IsDigit(s[|s| - 2]) && IsDigit(s[|s| - 1])
    && (|s| > 5 ==> |s| >= 7 && s[|s| - 6] == ':' && AllDigits(s[..|s| - 6]))
  }

  /** Reads a `[h:]mm:ss` clock back as a number of seconds. */
  function ClockValue(s: string): int
    requires ClockShape(s)
  {
    (if |s| > 5 then 3600 * ParseDigits(s[..|s| - 6]) else 0)
      + 60 * (10 * DigitValue(s[|s| - 5]) + DigitValue(s[|s| - 4]))
      + 10 * DigitValue(s[|s| - 2]) + DigitValue(s[|s| - 1])
  }

  /**
   * For a non-negative time the clock has the `[h:]mm:ss` shape, has no hour
   * part exactly below one hour, and reads back as the same number of seconds.
   */
  lemma SecondsToNormalRoundTrip(time: nat)
    ensures ClockShape(SecondsToNormal(time))
    ensures |SecondsToNormal(time)| == 5 <==> time < 3600
    ensures ClockValue(SecondsToNormal(time)) == time
  {
    var a := TimeToSeekArgs(time);
    var h, m, sec := a[0], a[1], a[2];
    FormatIsClock(h, m, sec);
    ClockRoundTrip(h, m, sec);
    if h > 0 {
      assert 3600 * h >= 3600;
    }
  }

  /** The formatting `secondsToNormal` applies to non-negative parts. */
  lemma FormatIsClock(h: int, m: int, sec: int)
    requires h >= 0 && 0 <= m < 60 && 0 <= sec < 60
    ensures (if h > 0 then IntToString(h) + ":" else "")
      + (PadStart2(IntToString(m)) + ":" + PadStart2(IntToString(sec))) == Clock(h, m, sec)
  {
    PadTwoDigits(m);
    PadTwoDigits(sec);
  }

  /** `[h:]mm:ss` from its parts, `h` written only when positive. */
  function Clock(h: nat, m: nat, sec: nat): string
    requires m < 60 && sec < 60
  {
    (if h > 0 then NatToString(h) + ":" else "") + (TwoDigits(m) + ":" + TwoDigits(sec))
  }

  lemma ClockRoundTrip(h: nat, m: nat, sec: nat)
    requires m < 60 && sec < 60
    ensures ClockShape(Clock(h, m, sec))
    ensures |Clock(h, m, sec)| == 5 <==> h == 0
    ensures ClockValue(Clock(h, m, sec)) == 3600 * h + 60 * m + sec
  {
    var tail := TwoDigits(m) + ":" + TwoDigits(sec);
    assert |tail| == 5;
    assert DigitValue(tail[0]) == m / 10 && DigitValue(tail[1]) == m % 10;
    assert DigitValue(tail[3]) == sec / 10 && DigitValue(tail[4]) == sec % 10;
    var r := Clock(h, m, sec);
    if h > 0 {
      var hs := NatToString(h);
      assert r == (hs + ":") + tail;
      assert r[|r| - 5..] == tail;
      assert r[..|r| - 6] == hs;
      ParseNatToString(h);
    } else {
      assert r == tail;
    }
  }

  // ---------------------------------------------------------------- sandbox URLs

  const SandboxScheme := "sandbox://"

  /** What the `sandbox` protocol handler in main.ts reads back from a URL. */
  function SandboxRequestPath(url: string): string
    requires StartsWith(url, SandboxScheme)
  {
    url[|SandboxScheme|..]
  }

  /**
   * `getPublicPathFor`: the renderer-visible URL of a bundled file, from
   * which the protocol handler recovers exactly the path it was made from.
   */
  function GetPublicPathFor(path: string): (url: string)
    ensures StartsWith(url, SandboxScheme)
    ensures SandboxRequestPath(url) == path
  {
    SandboxScheme + path
  }

  // ---------------------------------------------------------------- isSequential

  /** Every number is the first one plus its position. */
  predicate Sequential(numbers: seq<int>) {
    forall i :: 0 <= i < |numbers| ==> numbers[i] == numbers[0] + i
  }

  /** `isSequential`: true exactly for an empty list or a run of consecutive integers. */
  method IsSequential(numbers: seq<int>) returns (r: bool)
    ensures r <==> Sequential(numbers)
  {
    if |numbers| == 0 {
      return true;
    }
    var last := numbers[0];
    for k := 0 to |numbers|
      invariant last == numbers[0] + k
      invariant forall j :: 0 <= j < k ==> numbers[j] == numbers[0] + j
    {
      if numbers[k] == last {
        last := last + 1;
      } else {
        return false;
      }
    }
    return true;
  }

  // ---------------------------------------------------------------- getSortedTracks

  /** One row of the flat, index-ordered track list. */
  datatype DisplayTrack = DisplayTrack(
    index: int,
    title: string,
    fullWidthTitle: string,
    group: Option<string>,
    encoding: string,
    duration: int,
    album: Option<string>,
    artist: Option<string>)

  /** The row for track `t` of group `g`: missing titles read `Unknown Title` and `''`. */
  function ToDisplay(g: Group, t: Track): (d: DisplayTrack)
    ensures d.index == t.index && d.group == g.title && d.duration == t.duration
    ensures d.title == (if t.title.Some? then t.title.value else "Unknown Title")
    ensures d.fullWidthTitle == (if t.fullWidthTitle.Some? then t.fullWidthTitle.value else "")
  {
    DisplayTrack(
      t.index,
      if t.title.Some? then t.title.value else "Unknown Title",
      if t.fullWidthTitle.Some? then t.fullWidthTitle.value else "",
      g.title,
      t.encoding.codec,
      t.duration,
      t.album,
      t.artist)
  }

  function DisplayGroup(g: Group, tracks: seq<Track>): (r: seq<DisplayTrack>)
    ensures |r| == |tracks|
  {
    if tracks == [] then [] else DisplayGroup(g, tracks[..|tracks| - 1]) + [ToDisplay(g, tracks[|tracks| - 1])]
  }

  lemma {:induction false} DisplayGroupAt(g: Group, tracks: seq<Track>, k: nat)
    requires k < |tracks|
    ensures DisplayGroup(g, tracks)[k] == ToDisplay(g, tracks[k])
  {
    if k < |tracks| - 1 {
      DisplayGroupAt(g, tracks[..|tracks| - 1], k);
    }
  }

  lemma DisplayGroupStep(g: Group, tracks: seq<Track>, i: nat)
    requires i < |tracks|
    ensures DisplayGroup(g, tracks[..i + 1]) == DisplayGroup(g, tracks[..i]) + [ToDisplay(g, tracks[i])]
  {
    assert tracks[..i + 1][..i] == tracks[..i];
  }

  /** The rows of every track of every group, in group order. */
  function DisplayAll(groups: seq<Group>): seq<DisplayTrack> {
    if groups == [] then []
    else DisplayAll(groups[..|groups| - 1]) + DisplayGroup(groups[|groups| - 1], groups[|groups| - 1].tracks)
  }

  lemma DisplayAllStep(groups: seq<Group>, i: nat)
    requires i < |groups|
    ensures DisplayAll(groups[..i + 1]) == DisplayAll(groups[..i]) + DisplayGroup(groups[i], groups[i].tracks)
  {
    assert groups[..i + 1][..i] == groups[..i];
  }

  /** Each row comes from some track of some group, and each track has its row. */
  lemma {:induction false} DisplayAllRows(groups: seq<Group>)
    ensures forall d :: d in DisplayAll(groups) ==>
      exists g :: g in groups && exists t :: t in g.tracks && d == ToDisplay(g, t)
    ensures forall g, t :: g in groups && t in g.tracks ==> ToDisplay(g, t) in DisplayAll(groups)
  {
    if groups != [] {
      var init := groups[..|groups| - 1];
      var last := groups[|groups| - 1];
      DisplayAllRows(init);
      assert groups == init + [last];
      forall d | d in DisplayAll(groups)
        ensures exists g :: g in groups && exists t :: t in g.tracks && d == ToDisplay(g, t)
      {
        if d !in DisplayAll(init) {
          var rows := DisplayGroup(last, last.tracks);
          var k :| 0 <= k < |rows| && rows[k] == d;
          DisplayGroupAt(last, last.tracks, k);
          assert last in groups && last.tracks[k] in last.tracks;
        }
      }
      forall g, t | g in groups && t in g.tracks
        ensures ToDisplay(g, t) in DisplayAll(groups)
      {
        if g == last {
          var k :| 0 <= k < |last.tracks| && last.tracks[k] == t;
          DisplayGroupAt(last, last.tracks, k);
        } else {
          assert g in init;
        }
      }
    }
  }

  function DisplayKey(d: DisplayTrack): int { d.index }

  /** The outer push loop of `getSortedTracks`: the rows of each group in turn. */
  method CollectRows(groups: seq<Group>) returns (rows: seq<DisplayTrack>)
    ensures rows == DisplayAll(groups)
  {
    rows := [];
    for gi := 0 to |groups|
      invariant rows == DisplayAll(groups[..gi])
    {
      var groupRows := CollectGroupRows(groups[gi]);
      rows := rows + groupRows;
      DisplayAllStep(groups, gi);
    }
    assert groups[..|groups|] == groups;
  }

  /** The inner push loop of `getSortedTracks`: one row per track of `group`. */
  method CollectGroupRows(group: Group) returns (rows: seq<DisplayTrack>)
    ensures rows == DisplayGroup(group, group.tracks)
  {
    rows := [];
    for ti := 0 to |group.tracks|
      invariant rows == DisplayGroup(group, group.tracks[..ti])
    {
      DisplayGroupStep(group, group.tracks, ti);
      rows := rows + [ToDisplay(group, group.tracks[ti])];
    }
    assert group.tracks[..|group.tracks|] == group.tracks;
  }

  /**
   * `getSortedTracks`: one row per track of every group, ordered by track
   * index; no disc gives no rows.
   */
  method GetSortedTracks(disc: Option<Disc>) returns (tracks: seq<DisplayTrack>)
    ensures disc.None? ==> tracks == []
    ensures disc.Some? ==> multiset(tracks) == multiset(DisplayAll(disc.value.groups))
    ensures SortedBy(tracks, DisplayKey)
  {
    var rows: seq<DisplayTrack> := [];
    if disc.Some? {
      rows := CollectRows(disc.value.groups);
    }
    tracks := SortBy(rows, DisplayKey);
  }

  // ---------------------------------------------------------------- getGroupedTracks

  /** The tracks of the first untitled group, or none. */
  function UngroupedTracks(groups: seq<Group>): seq<Track> {
    match FirstUntitled(groups)
    case None => []
    case Some(k) => groups[k].tracks
  }

  /** An untitled filler group as the grouped view inserts them. */
  predicate IsFiller(g: Group) {
    g.index == -1 && g.title.None? && g.fullWidthTitle.None?
  }

  /** `u.splice(0, count)`: the removed front part and what is left. */
  function SpliceFront(u: seq<Track>, count: int): (r: (seq<Track>, seq<Track>))
    ensures r.0 + r.1 == u
    ensures count <= 0 ==> r.0 == []
    ensures 0 <= count <= |u| ==> |r.0| == count
  {
    if count <= 0 then ([], u)
    else if count >= |u| then (u, [])
    else (u[..count], u[count..])
  }

  /** Every group of `gs` holds a track. */
  predicate HoldTracks(gs: seq<Group>) {
    forall g :: g in gs ==> |g.tracks| > 0
  }

  lemma HoldTracksSnoc(gs: seq<Group>, g: Group)
    requires HoldTracks(gs) && |g.tracks| > 0
    ensures HoldTracks(gs + [g])
  {
    forall h | h in gs + [g] ensures |h.tracks| > 0 {
      if h != g {
        assert h in gs;
      }
    }
  }

  /** `lastIndex` before titled group `k`: one past the previous titled group's last track, 0 before the first. */
  function PrecedingEnd(titled: seq<Group>, k: nat): int
    requires k <= |titled| && HoldTracks(titled)
  {
    if k == 0 then 0
    else
      var g := titled[k - 1];
      assert g in titled;
      g.tracks[|g.tracks| - 1].index + 1
  }

  /** `toCopy` for titled group `k`: how many ungrouped tracks its filler takes off the front. */
  function ToCopy(titled: seq<Group>, k: nat): int
    requires k < |titled| && HoldTracks(titled)
  {
    assert titled[k] in titled;
    titled[k].tracks[0].index - PrecedingEnd(titled, k)
  }

  /** The ungrouped tracks still left once the fillers of the first `k` titled groups are taken. */
  function RestAfter(titled: seq<Group>, all: seq<Track>, k: nat): seq<Track>
    requires k <= |titled| && HoldTracks(titled)
  {
    if k == 0 then all else SpliceFront(RestAfter(titled, all, k - 1), ToCopy(titled, k - 1)).1
  }

  /** The tracks of the filler before titled group `k`: `ungroupedTracks.splice(0, toCopy)`. */
  function FillerTracks(titled: seq<Group>, all: seq<Track>, k: nat): seq<Track>
    requires k < |titled| && HoldTracks(titled)
  {
    SpliceFront(RestAfter(titled, all, k), ToCopy(titled, k)).0
  }

  /** Appending a titled group changes nothing about the fillers before it. */
  lemma {:induction false} RestAfterExtend(titled: seq<Group>, g: Group, all: seq<Track>, k: nat)
    requires k <= |titled| && HoldTracks(titled + [g])
    ensures HoldTracks(titled)
    ensures RestAfter(titled + [g], all, k) == RestAfter(titled, all, k)
    ensures k < |titled| ==> ToCopy(titled + [g], k) == ToCopy(titled, k)
  {
    assert forall j :: 0 <= j < |titled| ==> (titled + [g])[j] == titled[j];
    if k > 0 {
      RestAfterExtend(titled, g, all, k - 1);
    }
  }

  function Evens<T>(s: seq<T>): seq<T> {
    if s == [] then [] else if |s| == 1 then [s[0]] else [s[0]] + Evens(s[2..])
  }

  function Odds<T>(s: seq<T>): seq<T> {
    if |s| < 2 then [] else [s[1]] + Odds(s[2..])
  }

  lemma {:induction false} EvensOddsAppendPair<T>(s: seq<T>, a: T, b: T, n: nat)
    requires |s| == 2 * n
    ensures Evens(s + [a, b]) == Evens(s) + [a]
    ensures Odds(s + [a, b]) == Odds(s) + [b]
  {
    if s != [] {
      assert (s + [a, b])[2..] == s[2..] + [a, b];
      EvensOddsAppendPair(s[2..], a, b, n - 1);
    } else {
      assert s + [a, b] == [a, b];
    }
  }

  lemma {:induction false} EvensOddsAppendOne<T>(s: seq<T>, a: T, n: nat)
    requires |s| == 2 * n
    ensures Evens(s + [a]) == Evens(s) + [a]
    ensures Odds(s + [a]) == Odds(s)
  {
    if s != [] {
      assert (s + [a])[2..] == s[2..] + [a];
      EvensOddsAppendOne(s[2..], a, n - 1);
    } else {
      assert s + [a] == [a];
    }
  }

  predicate AllFillers(gs: seq<Group>) {
    forall g :: g in gs ==> IsFiller(g)
  }

  /** One titled group of the grouping loop: its filler, then the group itself. */
  lemma GroupedPairStep(grouped: seq<Group>, n: nat, filler: Group, group: Group,
                        ungrouped: seq<Track>, rest: seq<Track>, all: seq<Track>)
    requires |grouped| == 2 * n
    requires AllFillers(Evens(grouped)) && AllTracks(Evens(grouped)) + ungrouped == all
    requires IsFiller(filler) && filler.tracks + rest == ungrouped
    ensures Odds(grouped + [filler, group]) == Odds(grouped) + [group]
    ensures AllFillers(Evens(grouped + [filler, group]))
    ensures AllTracks(Evens(grouped + [filler, group])) + rest == all
  {
    EvensOddsAppendPair(grouped, filler, group, n);
    FillersAppend(Evens(grouped), filler);
    FillerTracksAppend(Evens(grouped), filler, ungrouped, rest, all);
  }

  /** The trailing filler of the grouping loop takes every track still ungrouped. */
  lemma GroupedLastStep(grouped: seq<Group>, n: nat, last: Group, all: seq<Track>)
    requires |grouped| == 2 * n
    requires AllFillers(Evens(grouped)) && AllTracks(Evens(grouped)) + last.tracks == all
    requires IsFiller(last)
    ensures Odds(grouped + [last]) == Odds(grouped)
    ensures AllFillers(Evens(grouped + [last]))
    ensures AllTracks(Evens(grouped + [last])) == all
  {
    EvensOddsAppendOne(grouped, last, n);
    FillersAppend(Evens(grouped), last);
    AllTracksAppend(Evens(grouped), last);
  }

  lemma FillersAppend(evens: seq<Group>, filler: Group)
    requires AllFillers(evens) && IsFiller(filler)
    ensures AllFillers(evens + [filler])
  {
    forall g | g in evens + [filler]
      ensures IsFiller(g)
    {
      if g != filler {
        assert g in evens;
      }
    }
  }

  lemma FillerTracksAppend(evens: seq<Group>, filler: Group, ungrouped: seq<Track>, rest: seq<Track>, all: seq<Track>)
    requires AllTracks(evens) + ungrouped == all
    requires filler.tracks + rest == ungrouped
    ensures AllTracks(evens + [filler]) + rest == all
  {
    AllTracksAppend(evens, filler);
    assert AllTracks(evens + [filler]) + rest == AllTracks(evens) + (filler.tracks + rest);
  }

  /** One splice of the loop takes the next filler and leaves the next rest. */
  lemma SpliceStep(titled: seq<Group>, group: Group, all: seq<Track>, ungrouped: seq<Track>, lastIndex: int,
                   split: (seq<Track>, seq<Track>))
    requires HoldTracks(titled) && HoldTracks(titled + [group])
    requires ungrouped == RestAfter(titled, all, |titled|)
    requires lastIndex == PrecedingEnd(titled, |titled|)
    requires var toCopy := group.tracks[0].index - lastIndex;
      split == if toCopy == 0 then ([], ungrouped) else SpliceFront(ungrouped, toCopy)
    ensures split.0 == FillerTracks(titled + [group], all, |titled|)
    ensures split.1 == RestAfter(titled + [group], all, |titled| + 1)
    ensures group.tracks[|group.tracks| - 1].index + 1 == PrecedingEnd(titled + [group], |titled| + 1)
  {
    var titled' := titled + [group];
    RestAfterExtend(titled, group, all, |titled|);
    assert titled'[|titled|] == group;
    assert PrecedingEnd(titled', |titled|) == lastIndex;
    assert ToCopy(titled', |titled|) == group.tracks[0].index - lastIndex;
  }

  /** The filler pushed before a new titled group extends the fillers already pushed. */
  lemma FillersStep(grouped: seq<Group>, titled: seq<Group>, group: Group, filler: Group, all: seq<Track>)
    requires |grouped| == 2 * |titled| && HoldTracks(titled + [group])
    requires HoldTracks(titled)
    requires forall k :: 0 <= k < |titled| ==> grouped[2 * k].tracks == FillerTracks(titled, all, k)
    requires filler.tracks == FillerTracks(titled + [group], all, |titled|)
    ensures forall k :: 0 <= k < |titled| + 1 ==>
      (grouped + [filler, group])[2 * k].tracks == FillerTracks(titled + [group], all, k)
  {
    forall k | 0 <= k < |titled|
      ensures (grouped + [filler, group])[2 * k].tracks == FillerTracks(titled + [group], all, k)
    {
      RestAfterExtend(titled, group, all, k);
    }
  }

  /**
   * What the grouping loop keeps: a filler before each titled group seen so
   * far, holding the tracks the splice takes for it, and the ungrouped
   * tracks and `lastIndex` that remain.
   */
  predicate Paired(all: seq<Track>, titled: seq<Group>, grouped: seq<Group>, ungrouped: seq<Track>, lastIndex: int) {
    && |grouped| == 2 * |titled|
    && Odds(grouped) == titled
    && AllFillers(Evens(grouped))
    && AllTracks(Evens(grouped)) + ungrouped == all
    && HoldTracks(titled)
    && (forall k :: 0 <= k < |titled| ==> grouped[2 * k].tracks == FillerTracks(titled, all, k))
    && ungrouped == RestAfter(titled, all, |titled|)
    && lastIndex == PrecedingEnd(titled, |titled|)
  }

  /** One titled group of the loop: its filler and the group keep `Paired`. */
  lemma PairedStep(all: seq<Track>, titled: seq<Group>, grouped: seq<Group>, ungrouped: seq<Track>, lastIndex: int,
                   group: Group, split: (seq<Track>, seq<Track>), filler: Group)
    requires Paired(all, titled, grouped, ungrouped, lastIndex) && |group.tracks| > 0
    requires var toCopy := group.tracks[0].index - lastIndex;
      split == if toCopy == 0 then ([], ungrouped) else SpliceFront(ungrouped, toCopy)
    requires filler == Group(-1, None, None, split.0)
    ensures Paired(all, titled + [group], grouped + [filler, group], split.1,
                   group.tracks[|group.tracks| - 1].index + 1)
  {
    GroupedPairStep(grouped, |titled|, filler, group, ungrouped, split.1, all);
    HoldTracksSnoc(titled, group);
    SpliceStep(titled, group, all, ungrouped, lastIndex, split);
    FillersStep(grouped, titled, group, filler, all);
  }

  /**
   * `getGroupedTracks`: the titled groups in disc order, each preceded by an
   * untitled filler, plus one trailing filler; the fillers together hold
   * exactly the tracks of the disc's ungrouped group, in their order.
   */
  method GetGroupedTracks(disc: Option<Disc>) returns (grouped: seq<Group>)
    requires disc.Some? ==> TitledNonEmpty(disc.value.groups)
    ensures disc.None? ==> grouped == []
    ensures disc.Some? ==> |grouped| == 2 * |Titled(disc.value.groups)| + 1
    ensures disc.Some? ==> Odds(grouped) == Titled(disc.value.groups)
    ensures AllFillers(Evens(grouped))
    ensures disc.Some? ==> AllTracks(Evens(grouped)) == UngroupedTracks(disc.value.groups)
    ensures disc.Some? ==> HoldTracks(Titled(disc.value.groups))
    ensures disc.Some? ==> forall k :: 0 <= k < |Titled(disc.value.groups)| ==>
      grouped[2 * k].tracks == FillerTracks(Titled(disc.value.groups), UngroupedTracks(disc.value.groups), k)
    ensures disc.Some? ==> var titled := Titled(disc.value.groups);
      grouped[2 * |titled|].tracks == RestAfter(titled, UngroupedTracks(disc.value.groups), |titled|)
  {
    if disc.None? {
      return [];
    }
    var groups := disc.value.groups;
    var ungrouped;
    grouped, ungrouped := PairTitledGroups(groups, UngroupedTracks(groups));
    var last := Group(-1, None, None, ungrouped);
    GroupedLastStep(grouped, |Titled(groups)|, last, UngroupedTracks(groups));
    grouped := grouped + [last];
  }

  /**
   * The loop of `getGroupedTracks`: each titled group preceded by a filler
   * taking the ungrouped tracks numbered below its first track; returns the
   * ungrouped tracks still left.
   */
  method PairTitledGroups(groups: seq<Group>, all: seq<Track>) returns (grouped: seq<Group>, ungrouped: seq<Track>)
    requires TitledNonEmpty(groups)
    ensures |grouped| == 2 * |Titled(groups)|
    ensures Odds(grouped) == Titled(groups)
    ensures AllFillers(Evens(grouped))
    ensures AllTracks(Evens(grouped)) + ungrouped == all
    ensures HoldTracks(Titled(groups))
    ensures forall k :: 0 <= k < |Titled(groups)| ==> grouped[2 * k].tracks == FillerTracks(Titled(groups), all, k)
    ensures ungrouped == RestAfter(Titled(groups), all, |Titled(groups)|)
  {
    ungrouped := all;
    ghost var titled: seq<Group> := [];
    grouped := [];
    var lastIndex := 0;
    for gi := 0 to |groups|
      invariant titled == Titled(groups[..gi])
      invariant Paired(all, titled, grouped, ungrouped, lastIndex)
    {
      var group := groups[gi];
      TitledStep(groups, gi);
      if group.title.None? {
        continue;
      }
      assert groups[gi] in groups;
      var toCopy := group.tracks[0].index - lastIndex;
      var split := if toCopy == 0 then ([], ungrouped) else SpliceFront(ungrouped, toCopy);
      var filler := Group(-1, None, None, split.0);
      PairedStep(all, titled, grouped, ungrouped, lastIndex, group, split, filler);
      grouped := grouped + [filler, group];
      titled := titled + [group];
      ungrouped := split.1;
      lastIndex := group.tracks[|group.tracks| - 1].index + 1;
    }
    assert groups[..|groups|] == groups;
  }

}
