# ElectronWMD core, modelled in Dafny

ElectronWMD is the desktop wrapper of Web MiniDisc Pro. It drives NetMD, Hi-MD and
Sony NW Walkman devices from an Electron app. This project models the parts of it
that hold state or logic:

- the table-of-contents editing shared by the device services: group recomputation after
  a track move, adding, merging, renaming and deleting groups, track renames, swaps and
  deletions, and the conversion between the app's disc model and the NetMD library's;
- the NetMD (USB), legacy NetMD, Hi-MD and NetworkWM services, each a class whose fields
  are the cached disc and the session flags the source keeps;
- the display helpers of `utils.ts`: the sorted and grouped track views, the clock
  formatting, and the `sandbox://` public paths;
- the factory-mode RAM dump;
- the macOS helper process and its bridge. This covers the socket and pid paths, the
  server that rebuilds callbacks from placeholders, and the client connection whose
  promises settle once. It also covers the preload script's callback table and, in
  `Bridge`, the end-to-end route from a renderer call to the callbacks and the
  settlement it sees.

Device libraries (netmd-js, himd-js, networkwm-js), the file system and the sockets
are not modelled as code. What they return enters as a parameter, and what is sent to
them leaves as an out-parameter or a field that records it. Each service method
states its whole new state in terms of the old one. The lemmas beside the methods
state what the source promises: round trips, preserved track bags, orderings, error
cases and "nothing else changes".

The intermediary server reads a `service` field from every call
(`src/macos/server.ts:81`) and sends it to the NetworkWM device when it is `nwjs`,
to the Hi-MD device otherwise (`src/macos/server.ts:93`). The client in
`src/macos/server-bootstrap.ts:83-85` writes only `name` and `allArgs`, so
every call it makes reaches the Hi-MD device. The model routes by `service` as the
server does (`BridgeServer.Route`, `Bridge.CallbackReachesRenderer`).

## Model

| member | source | states |
|---|---|---|
| Strings.ParseNatToString | src/macos/server.ts:26-31 | reading back the decimal digits `String(n)` writes yields `n` |
| Strings.NatToStringInjective | src/macos/server.ts:87 | distinct numbers never share a decimal representation |
| Strings.PadStart2 | src/wmd/original/utils.ts:61 | `padStart(2, '0')` keeps the string as the suffix and pads to length 2 with zeros only |
| Strings.IntToString | src/wmd/original/utils.ts:61 | `String(n)` starts with `-` exactly for negative `n`, and the decimal digits after it read back as the magnitude of `n` |
| Strings.SplitOn | src/wmd/networkwm-service.ts:377 | `split` yields at least one piece, no piece holds the separator, and one piece exactly when the separator is absent |
| Strings.JoinSplit | src/wmd/networkwm-service.ts:377 | joining the pieces of a split with the separator gives back the string |
| Strings.SplitCount | src/wmd/networkwm-service.ts:373-377 | a split yields one piece more than the separator's occurrences |
| Strings.RemoveFirst | src/wmd/networkwm-service.ts:373 | `replace` with a one-character pattern removes exactly its first occurrence (the string before it and the string after it are kept), and changes nothing when the character does not occur |
| Strings.IndexOf | src/wmd/networkwm-service.ts:373 | the position `replace` acts on holds the character and no earlier position does |
| Strings.OccurrencesPositive | src/wmd/networkwm-service.ts:373 | a character occurs in a string exactly when its count is positive |
| Strings.TrimStart | src/wmd/networkwm-service.ts:377 | trimming keeps a suffix that does not start with JavaScript white space, and every character it drops is white space |
| Strings.TrimEnd | src/wmd/networkwm-service.ts:377 | trimming keeps a prefix that does not end with JavaScript white space, and every character it drops is white space |
| Strings.LexLessAsymmetric | src/wmd/netmd.ts:317 | JavaScript's string order never puts two strings each before the other |
| Sorting.InsertBy | src/wmd/original/utils.ts:95 | inserting into a key-sorted sequence keeps it sorted and adds exactly that element |
| Sorting.SortBy | src/wmd/original/utils.ts:95 | the sort by index is sorted by its key and is a permutation of its input |
| Sorting.Reverse | src/wmd/original/services/interfaces/netmd.ts:631-632 | `reverse` puts element `i` at position `len - 1 - i` |
| Sorting.ReverseMultiset | src/wmd/original/services/interfaces/netmd.ts:631-632 | reversing is a permutation |
| DiscModel.AllTracksConcat | src/wmd/original/utils.ts:144-146 | the tracks of two group lists together are the tracks of each, in order |
| DiscModel.AllTracksMembership | src/wmd/original/utils.ts:144-146 | a track is in the flattened list exactly when some group holds it |
| DiscModel.FirstUntitled | src/wmd/original/utils.ts:104 | `find(g => g.title === null)` gives the first untitled group, or none exactly when every group is titled |
| DiscModel.Titled | src/wmd/original/utils.ts:155-156 | a group is kept by the titled-groups filter exactly when it is a group of the disc with a title |
| DiscModel.TitledPositions | src/wmd/original/utils.ts:155-156 | the titled positions of the disc: strictly increasing, each holding a titled group, and naming every titled group |
| DiscModel.TitledAtPositions | src/wmd/original/utils.ts:155-156 | the filter keeps the titled groups in disc order: its k-th group is the disc's group at the k-th titled position |
| Utils.JsRemainder60 | src/wmd/original/utils.ts:48-51 | JavaScript's `% 60` takes the sign of the dividend and differs from it by a multiple of 60 |
| Utils.TimeToSeekArgs | src/wmd/original/utils.ts:45-57 | the hours, minutes and seconds add back up to the input, with minutes and seconds in range for either sign, and zero frames |
| Utils.SecondsToNormalRoundTrip | src/wmd/original/utils.ts:59-62 | `secondsToNormal` writes `[h:]mm:ss`, has no hour part exactly below one hour, and reads back as the same seconds |
| Utils.ClockRoundTrip | src/wmd/original/utils.ts:61 | a clock built from hours, minutes and seconds reads back as `3600h + 60m + s` |
| Utils.GetPublicPathFor | src/wmd/original/utils.ts:233-235 | a public path is a `sandbox://` URL from which the `sandbox` protocol handler (src/main.ts:295-296) recovers exactly the path it was made from |
| Utils.IsSequential | src/wmd/original/utils.ts:207-216 | the loop answers true exactly for a run of consecutive integers (or none) |
| Utils.ToDisplay | src/wmd/original/utils.ts:81-91 | a row carries the track's index, duration and group title, with `Unknown Title` and `''` for missing titles |
| Utils.DisplayAllRows | src/wmd/original/utils.ts:79-93 | every row comes from a track of a group, and every track of every group has its row |
| Utils.CollectRows | src/wmd/original/utils.ts:79-93 | the outer push loop yields the rows of every group in group order |
| Utils.CollectGroupRows | src/wmd/original/utils.ts:80-92 | the inner push loop yields one row per track of the group |
| Utils.GetSortedTracks | src/wmd/original/utils.ts:76-97 | the sorted view is a permutation of all rows, ordered by track index, and empty without a disc |
| Utils.SpliceFront | src/wmd/original/utils.ts:117 | `splice(0, n)` splits the list into a front of `n` tracks (none for `n <= 0`) and the rest |
| Utils.GetGroupedTracks | src/wmd/original/utils.ts:99-129 | the grouped view alternates fillers and the titled groups in disc order, ends with a filler, and the fillers together hold exactly the ungrouped tracks; the filler before titled group k holds the next `toCopy` ungrouped tracks (first index of group k minus one past the last index of group k-1, or 0), and the trailing filler holds what is left |
| Utils.PairTitledGroups | src/wmd/original/utils.ts:106-121 | the loop emits a filler before each titled group, taking `toCopy` tracks off the front of the ungrouped tracks still left (none when `toCopy` is not positive), and the fillers plus the leftover are exactly the ungrouped tracks |
| Utils.GroupedPairStep | src/wmd/original/utils.ts:112-120 | one titled group of the loop keeps the alternation and the partition of the ungrouped tracks |
| Utils.GroupedLastStep | src/wmd/original/utils.ts:122-127 | the trailing filler takes every track still ungrouped |
| GroupRecompute.DropIndex | src/wmd/original/utils.ts:148 | the delete-mode filter keeps exactly the tracks whose index is not the deleted one |
| GroupRecompute.DropIndexMultiset | src/wmd/original/utils.ts:148 | the filter keeps each other track as often as it occurred and no copy of the deleted index |
| GroupRecompute.DropIndexSorted | src/wmd/original/utils.ts:147-148 | the filter keeps index order |
| GroupRecompute.OrderedTracks | src/wmd/original/utils.ts:144-148 | `allTracks` is sorted by index and holds exactly the disc's tracks other than the deleted index |
| GroupRecompute.OrderedTracksMultiset | src/wmd/original/utils.ts:144-148 | `allTracks` holds every track of the disc as often as the disc does, except those with the deleted index |
| GroupRecompute.InitialBoundaries | src/wmd/original/utils.ts:155-162 | one boundary per titled group |
| GroupRecompute.InitialBoundariesSpan | src/wmd/original/utils.ts:155-162 | boundary k carries the k-th titled group's titles, starts at its first track index and spans as many indexes as it has tracks, ending at its last track's index when its tracks are numbered consecutively |
| GroupRecompute.ShiftBoundaries | src/wmd/original/utils.ts:164-175 | the loop shifts exactly the boundaries the move crosses and reports whether any moved |
| GroupRecompute.RenumberTracks | src/wmd/original/utils.ts:196-200 | the delete-mode loop gives each track its position as index |
| GroupRecompute.Recomputed | src/wmd/original/utils.ts:131-205 | recomputation changes only the groups and keeps every titled group non-empty |
| GroupRecompute.RecomputeGroupsAfterTrackMove | src/wmd/original/utils.ts:131-205 | the method computes `Recomputed` |
| GroupRecompute.RecomputeUnchangedWhenNothingShifts | src/wmd/original/utils.ts:177 | when no boundary moves the disc is returned unchanged |
| GroupRecompute.RebuiltGroupsTitled | src/wmd/original/utils.ts:182-189 | every rebuilt group is titled and non-empty (empty slices are dropped) |
| GroupRecompute.UncoveredMembership | src/wmd/original/utils.ts:192-193 | the leftover group holds exactly the tracks no boundary covers |
| GroupRecompute.SliceCovers | src/wmd/original/utils.ts:187 | a rebuilt group holds exactly the tracks at the positions its boundary covers |
| GroupRecompute.RebuiltDiscGroupsShape | src/wmd/original/utils.ts:182-202 | only the first rebuilt group can be untitled, exactly when tracks are left over, and then it holds them |
| GroupRecompute.RebuiltGroupsOrder | src/wmd/original/utils.ts:182-189 | the kept groups follow the boundaries' order |
| GroupRecompute.RebuiltDiscGroupsOrder | src/wmd/original/utils.ts:182-202 | after the leftover group, the groups follow the boundaries' order |
| GroupRecompute.RebuiltFollowsTitled | src/wmd/original/utils.ts:155-189 | each rebuilt group carries the name of the titled group its boundary came from, in disc order |
| GroupRecompute.RecomputeKeepsTitledOrder | src/wmd/original/utils.ts:155-202 | the recomputed disc keeps the titled groups' names and order |
| GroupRecompute.RebuiltDiscGroupsKeepTracks | src/wmd/original/utils.ts:182-202 | regrouping loses no track and invents none |
| GroupRecompute.RecomputeDeleteRenumbers | src/wmd/original/utils.ts:136-200 | in delete mode the new groups hold exactly the other tracks, renumbered by position in index order |
| GroupRecompute.RenumberedGroupsCover | src/wmd/original/utils.ts:196-202 | the groups rebuilt from renumbered tracks hold exactly those tracks |
| SocketPath.FirstTruthy | src/macos/socket-path.ts:7-10 | the `||` chain picks the first truthy candidate, or none when all are falsy |
| SocketPath.EnvBasePriority | src/macos/socket-path.ts:7-10 | the base directory is the argument, else `EWWORKDIR`, else `TMPDIR`, else `/tmp`, the first non-empty one |
| SocketPath.StripTrailingSlashes | src/macos/socket-path.ts:12 | the regular expression removes exactly the trailing slashes |
| SocketPath.SocketDirShape | src/macos/socket-path.ts:6-14 | the socket directory is non-empty and has no trailing slash; a base made of slashes only gives `/tmp` |
| SocketPath.UidSuffixPriority | src/macos/socket-path.ts:16-21 | the suffix is a non-empty `SUDO_UID`, else the uid's decimal digits, else `nouid` |
| SocketPath.FilesInDir | src/macos/socket-path.ts:26 | the socket and pid files are `ewmd-<uid>.sock` and `ewmd-<uid>.pid` directly in the directory |
| SocketPath.SocketAndPidSideBySide | src/macos/socket-path.ts:23-33 | the socket and pid paths share their directory and uid suffix |
| SocketPath.DistinctUidsDistinctSockets | src/macos/socket-path.ts:23-27 | two users with different uid suffixes never share a socket |
| SocketPath.DefaultTmpSocket | scripts/test-socket-path.js:7-13 | under `/tmp` the socket is `/tmp/ewmd-<uid>.sock`, short enough for a Unix socket |
| SocketPath.WorkDirOverride | scripts/test-socket-path.js:15-19 | `EWWORKDIR=/var/tmp` puts the socket under `/var/tmp/` |
| SocketPath.DirPrefixTopLevel | src/macos/socket-path.ts:26 | joining a top-level directory prefixes it with `/` and appends `/` |
| SocketPath.DirPrefixDeeper | src/macos/socket-path.ts:26 | the joined prefix of a nested directory extends its parent's |
| NodePath.ResolveClean | src/macos/socket-path.ts:26 | normalising segments leaves no empty or `.` segment and `..` only at the front, or none at the root |
| NodePath.ResolveCleanFixed | src/macos/socket-path.ts:26 | clean segments normalise to themselves |
| NodePath.ResolveIdempotent | src/macos/socket-path.ts:26 | normalising twice is normalising once |
| NodePath.JoinPlainName | src/macos/socket-path.ts:26 | `path.join(dir, name)` with a plain name is the normalised directory, a slash, and the name |
| NodePath.DirPrefixTrailingSlash | src/macos/socket-path.ts:26 | a trailing slash on the directory changes nothing |
| MinidiscSpecs.CodecFromIndex | src/wmd/original/services/interfaces/netmd.ts:156-161 | a valid format index gives a codec the spec offers |
| MinidiscSpecs.DefaultCodec | src/wmd/original/services/interfaces/netmd.ts:163-165 | the default format is a codec the spec offers |
| MinidiscSpecs.DefaultSpecDefaults | src/wmd/original/services/interfaces/netmd.ts:182-185 | the NetMD default is SP at 292 kbps, named `SP` |
| MinidiscSpecs.DefaultSpecOffers | src/wmd/original/services/interfaces/netmd.ts:183 | the NetMD spec offers exactly SP, mono SP, LP2 and LP4 |
| MinidiscSpecs.TranslateDefaultFactors | src/wmd/original/services/interfaces/netmd.ts:207-209 | SP time counts once, mono and LP2 twice, LP4 four times |
| MinidiscSpecs.TranslateDefaultNotShorter | src/wmd/original/services/interfaces/netmd.ts:207-209 | a mode no faster than SP never shortens the time left |
| MinidiscSpecs.CeilDiv512 | src/wmd/original/services/interfaces/netmd.ts:310 | `Math.ceil(x / 512)` is the least multiple count covering `x` |
| MinidiscSpecs.EncodingRoundTrip | src/wmd/original/services/interfaces/netmd.ts:339-357 | a library encoding converted to a codec and back is unchanged |
| MinidiscSpecs.CodecRoundTrip | src/wmd/original/services/interfaces/netmd.ts:339-357 | a codec survives the round trip exactly when it is canonical for the channel count |
| MinidiscSpecs.TrackToLib | src/wmd/original/services/interfaces/netmd.ts:351-357 | durations go to the library in frames of 512 |
| MinidiscSpecs.TrackToApp | src/wmd/original/services/interfaces/netmd.ts:339-349 | library durations round up to whole 512-frame units |
| MinidiscSpecs.TrackRoundTrip | src/wmd/original/services/interfaces/netmd.ts:325-357 | a track survives app to library to app exactly when its codec is canonical; the duration always survives |
| MinidiscSpecs.LibTrackRoundTrip | src/wmd/original/services/interfaces/netmd.ts:325-357 | a library track comes back with its encoding and a duration rounded up to 512, unchanged exactly when it was a multiple |
| MinidiscSpecs.GroupRoundTrip | src/wmd/original/services/interfaces/netmd.ts:325-357 | a group survives the round trip exactly when all its tracks' codecs are canonical |
| MinidiscSpecs.DiscToLib | src/wmd/original/services/interfaces/netmd.ts:316-323 | space goes to the library in frames of 512, groups one for one |
| MinidiscSpecs.DiscToApp | src/wmd/original/services/interfaces/netmd.ts:307-314 | library space rounds up to whole 512-frame units, groups one for one |
| MinidiscSpecs.DiscRoundTrip | src/wmd/original/services/interfaces/netmd.ts:307-357 | a disc survives app to library to app exactly when all its codecs are canonical; its space always does |
| GroupEdits.BagPermutation | src/wmd/original/services/interfaces/netmd.ts:585 | reordering groups keeps the bag of tracks |
| GroupEdits.SelectedRemaining | src/wmd/original/services/interfaces/netmd.ts:568-569 | the selected and remaining tracks partition the ungrouped ones |
| GroupEdits.NonEmptyGroupsTracks | src/wmd/original/services/interfaces/netmd.ts:585 | dropping empty groups loses no track |
| GroupEdits.RegroupedResult | src/wmd/original/services/interfaces/netmd.ts:579-585 | the new group list keeps the bag of tracks, has no empty group, is ordered by first track, and holds the new group |
| GroupEdits.AddGroupErrors | src/wmd/original/services/interfaces/netmd.ts:559-577 | `addGroup` does nothing without an ungrouped group, fails with "A track cannot be in 2 groups!" exactly when some selected track is grouped, with "Invalid sequence of tracks!" exactly when they are not consecutive, and succeeds otherwise |
| GroupEdits.AddGroupResult | src/wmd/original/services/interfaces/netmd.ts:559-588 | a successful `addGroup` keeps the bag of tracks, leaves no empty group, orders groups by first track, and holds the new titled group |
| GroupEdits.FindIndex | src/wmd/original/services/interfaces/netmd.ts:604 | `findIndex` gives the first group with that index, or none exactly when none has it |
| GroupEdits.WithUngrouped | src/wmd/original/services/interfaces/netmd.ts:594-603 | an ungrouped group exists afterwards and no track changed |
| GroupEdits.MergedGroup | src/wmd/original/services/interfaces/netmd.ts:606-608 | the merged group keeps the ungrouped title and holds both groups' tracks in index order |
| GroupEdits.MergeIntoResult | src/wmd/original/services/interfaces/netmd.ts:604-609 | merging into the ungrouped group keeps the bag, removes one group, and the ungrouped group holds the deleted group's tracks sorted |
| GroupEdits.DeleteGroupUnknown | src/wmd/original/services/interfaces/netmd.ts:591-613 | deleting an unknown group changes no track and at most adds an empty ungrouped group |
| GroupEdits.DeleteGroupTitled | src/wmd/original/services/interfaces/netmd.ts:591-613 | deleting a titled group keeps every track, moving its tracks into the sorted ungrouped group |
| GroupEdits.DeleteGroupOnlyDropsTracks | src/wmd/netmd.ts:293-304 | the legacy `deleteGroup` drops exactly the deleted group's tracks, and an unknown group changes nothing |
| GroupEdits.RenameGroupEffect | src/wmd/original/services/interfaces/netmd.ts:543-556 | renaming fails exactly for an unknown index, and otherwise retitles that group only, keeping the full-width title when none is given |
| GroupEdits.RetitledGroupsEffect | src/wmd/original/services/interfaces/netmd.ts:529-538 | renaming a track retitles exactly the tracks with that index and is idempotent |
| GroupEdits.SwappedTrackInvolution | src/wmd/original/services/interfaces/netmd.ts:684-688 | swapping two indexes twice gives back the track |
| GroupEdits.SwappedGroupEffect | src/wmd/original/services/interfaces/netmd.ts:682-691 | a group's tracks are the swapped ones, re-sorted by index, nothing else changed |
| GroupEdits.SwappedGroupsEffect | src/wmd/original/services/interfaces/netmd.ts:682-691 | every group keeps its fields and gets its tracks swapped and re-sorted |
| GroupEdits.DescendingIndexesOrder | src/wmd/original/services/interfaces/netmd.ts:631-632 | the numeric sort then reverse is a descending permutation of the indexes |
| NetMDService.UploadFormatAgreesWithSpec | src/wmd/original/services/interfaces/netmd.ts:723-728 | every codec the spec offers uploads in the library's format for it, and only codecs other than SP, mono SP and ATRAC3 are refused |
| NetMDService.DeletedAllKeepsDisc | src/wmd/original/services/interfaces/netmd.ts:633-638 | deleting tracks changes only the disc's groups |
| NetMDService.EraseEach | src/wmd/original/services/interfaces/netmd.ts:634-641 | the loop recomputes the groups once per erased index, in the order given |
| NetMDService.RetitleTracks | src/wmd/original/services/interfaces/netmd.ts:529-538 | the nested loops retitle every track with the index |
| NetMDService.SwapTrackIndexes | src/wmd/original/services/interfaces/netmd.ts:682-691 | the nested loops swap the two indexes in every group and re-sort |
| NetMDService.NetMDUSBService.constructor | src/wmd/original/services/interfaces/netmd.ts:359-366 | a new service has no cached disc and no session |
| NetMDService.NetMDUSBService.ListContentUsingCache | src/wmd/original/services/interfaces/netmd.ts:456-464 | the cached disc is returned, or the device's disc is read and cached |
| NetMDService.NetMDUSBService.DropCachedContentList | src/wmd/original/services/interfaces/netmd.ts:466-469 | the cache is emptied |
| NetMDService.NetMDUSBService.ListContent | src/wmd/original/services/interfaces/netmd.ts:492-495 | dropping the cache re-reads the device; the result is cached |
| NetMDService.NetMDUSBService.RewriteGroups | src/wmd/original/services/interfaces/netmd.ts:514-519 | the cached disc gets the new groups and is sent to the device |
| NetMDService.NetMDUSBService.RenameTrack | src/wmd/original/services/interfaces/netmd.ts:522-540 | the cached disc's tracks with the index get the sanitised title |
| NetMDService.NetMDUSBService.RenameGroup | src/wmd/original/services/interfaces/netmd.ts:543-556 | an unknown group changes nothing; otherwise the renamed groups are cached and written |
| NetMDService.NetMDUSBService.AddGroup | src/wmd/original/services/interfaces/netmd.ts:559-588 | the error or no-op of `addGroup` leaves the cache as read; success caches and writes the new groups |
| NetMDService.NetMDUSBService.DeleteGroup | src/wmd/original/services/interfaces/netmd.ts:591-613 | the groups without the deleted one are cached and written |
| NetMDService.NetMDUSBService.RenameDisc | src/wmd/original/services/interfaces/netmd.ts:616-624 | the cached disc gets the new title, and the new full-width title when one is given |
| NetMDService.NetMDUSBService.DeleteTracks | src/wmd/original/services/interfaces/netmd.ts:627-644 | tracks are erased in descending order, the groups recomputed after each, and the cache dropped |
| NetMDService.NetMDUSBService.MoveTrack | src/wmd/original/services/interfaces/netmd.ts:675-693 | the cache gets the swapped indexes; the recomputed groups are written unless `updateGroups` is false |
| NetMDService.NetMDUSBService.PrepareUpload | src/wmd/original/services/interfaces/netmd.ts:696-700 | a session is opened |
| NetMDService.NetMDUSBService.FinalizeUpload | src/wmd/original/services/interfaces/netmd.ts:703-708 | the session is closed and the cache dropped |
| NetMDService.NetMDUSBService.Upload | src/wmd/original/services/interfaces/netmd.ts:715-757 | an unsupported codec is refused, no session is an error, otherwise the upload goes out in the codec's format and the cache is dropped |
| FactoryRam.RamSize | src/wmd/original/services/interfaces/netmd.ts:892 | firmware starting with `R` has 0x4800 bytes of RAM, every other 0x9000, a whole number of slices |
| FactoryRam.Reports | src/wmd/original/services/interfaces/netmd.ts:894-897 | one progress report per slice, at the slice's offset |
| FactoryRam.DumpIsImage | src/wmd/original/services/interfaces/netmd.ts:894-899 | byte `j` of the dump is byte `j % 16` of the slice read at `j`'s slice address |
| FactoryRam.ReadRam | src/wmd/original/services/interfaces/netmd.ts:890-900 | the loop reads every slice of the RAM in order, reporting progress after each only when a callback is given |
| FactoryRam.ReadRamOutcome | src/wmd/original/services/interfaces/netmd.ts:890-900 | the dump is as long as the RAM, the first report is at 0 and the last one slice short of the total |
| HiMDService.HiMDSpecDefaults | src/wmd/original/services/interfaces/himd.ts:57-64 | the Hi-MD default is ATRAC3plus at 256 kbps |
| HiMDService.Cells | src/wmd/original/services/interfaces/himd.ts:69 | a title takes whole 14-character cells, at least its length and less than one cell more |
| HiMDService.FieldCells | src/wmd/original/services/interfaces/himd.ts:73-79 | a field takes no cells exactly when it is missing or empty |
| HiMDService.RemainingCharactersForTitles | src/wmd/original/services/interfaces/himd.ts:67-84 | the loop subtracts the cells of the disc title and every group and track field from the total |
| HiMDService.RemainingCharactersFacts | src/wmd/original/services/interfaces/himd.ts:67-84 | all characters remain exactly when the disc has no title anywhere |
| HiMDService.TracksCellsFacts | src/wmd/original/services/interfaces/himd.ts:72-81 | tracks take no cells exactly when none has a title, album or artist |
| HiMDService.GroupsCellsFacts | src/wmd/original/services/interfaces/himd.ts:72-81 | groups take no cells exactly when no group or track is titled |
| HiMDService.CharactersForTitle | src/wmd/original/services/interfaces/himd.ts:86-93 | a track's title costs whole cells and no full-width characters |
| HiMDService.CharactersForTitleBounds | src/wmd/original/services/interfaces/himd.ts:86-165 | the Hi-MD spec's cost (`HiMDSpec.getCharactersForTitle`) is at least the restricted service's raw length and less than three cells more |
| HiMDService.TranslateDefaultMeasuringModeTo | src/wmd/original/services/interfaces/himd.ts:95-97 | the translation always throws |
| HiMDService.ShownSpace | src/wmd/original/services/interfaces/himd.ts:188-192 | nearly-full space shows as full; the used plus free total is kept |
| HiMDService.CachedTrack | src/wmd/original/services/interfaces/himd.ts:206-216 | a cached track keeps its index, is stereo, unprotected, and has all three titles |
| HiMDService.CachedGroup | src/wmd/original/services/interfaces/himd.ts:202-217 | only the first group can be untitled, a titled group keeps its title, and the tracks map one for one |
| HiMDService.CachedDisc | src/wmd/original/services/interfaces/himd.ts:199-222 | the cached disc's groups map one for one |
| HiMDService.CachedDiscShape | src/wmd/original/services/interfaces/himd.ts:184-222 | the cached disc is read-only, keeps the space totals and track count, and its ungrouped group is first |
| HiMDService.ForwardedGroupsAreTitled | src/wmd/original/services/interfaces/himd.ts:288-299 | `rewriteGroups` forwards exactly the titled groups, as title and track indexes |
| HiMDService.FindTitledGroup | src/wmd/original/services/interfaces/himd.ts:271 | the search finds the first titled group starting at the index, or none exactly when there is none |
| HiMDService.UploadPlanFor | src/wmd/original/services/interfaces/himd.ts:542-581 | MP3, ATRAC3plus, ATRAC3 and PCM are accepted and everything else is "Invalid format"; only MP3 takes the MP3 path |
| HiMDService.UploadAcceptsSpec | src/wmd/original/services/interfaces/himd.ts:57-62 | every codec the Hi-MD spec offers can be uploaded |
| HiMDService.HiMD.constructor | src/wmd/original/services/interfaces/himd.ts:128-138 | a new service has no cache, no open data and no session |
| HiMDService.HiMD.ReloadCache | src/wmd/original/services/interfaces/himd.ts:184-224 | the cache holds the disc read from the device unless already cached |
| HiMDService.HiMD.DropCachedContentList | src/wmd/original/services/interfaces/himd.ts:226-229 | the cache is emptied |
| HiMDService.HiMD.ListContent | src/wmd/original/services/interfaces/himd.ts:235-248 | a dirty device alerts instead of re-reading; the result is cached |
| HiMDService.HiMD.RewriteGroups | src/wmd/original/services/interfaces/himd.ts:288-299 | the titled groups are forwarded and the cache dropped |
| HiMDService.HiMD.DeleteTracks | src/wmd/original/services/interfaces/himd.ts:301-303 | the restricted service only alerts and keeps its cache; the full service's override (himd.ts:522-533) erases the given tracks and drops the cache |
| HiMDService.HiMD.MoveTrack | src/wmd/original/services/interfaces/himd.ts:309-315 | with a truthy `updateGroups` the titled groups of the content regrouped around the move are rewritten; the move is sent and the cache ends empty |
| HiMDService.HiMD.GroupSlot | src/wmd/original/services/interfaces/himd.ts:267-286 | an unknown group is an error; otherwise its slot is returned and the cache dropped |
| HiMDService.HiMD.PrepareUpload | src/wmd/original/services/interfaces/himd.ts:317-320 | opens the data file, complaining if already open |
| HiMDService.HiMD.FinalizeUpload | src/wmd/original/services/interfaces/himd.ts:322-328 | closes an open data file, dropping the cache and, in the full service, the session |
| HiMDService.HiMD.GetDeviceStatus | src/wmd/original/services/interfaces/himd.ts:170-182 | the device can be flushed exactly when data is open or the file system is dirty |
| HiMDService.HiMD.GetServiceCapabilities | src/wmd/original/services/interfaces/himd.ts:357-364 | upload is offered exactly by the full service; listing, editing, download and Hi-MD titles always |
| HiMDService.HiMD.Upload | src/wmd/original/services/interfaces/himd.ts:535-605 | the restricted service refuses; the full one plans the upload and opens a session for non-MP3 |
| NetworkWM.ArtistAlbums | src/wmd/networkwm-service.ts:169-170 | each album of an artist is listed under the artist's name, in order |
| NetworkWM.ListedGroupsTracks | src/wmd/networkwm-service.ts:168-193 | the albums' groups hold exactly the listed tracks, in order |
| NetworkWM.ListedGroupsTitles | src/wmd/networkwm-service.ts:168-193 | one group per album, titled by artist and album |
| NetworkWM.ListedDiscGroups | src/wmd/networkwm-service.ts:204-214 | the disc starts with an empty ungrouped group, then one titled group per album |
| NetworkWM.ListedDiscNumbering | src/wmd/networkwm-service.ts:168-213 | the tracks are numbered 0 to the track count, in listing order |
| NetworkWM.AddAlbum | src/wmd/networkwm-service.ts:170-191 | one album's tracks join the list and form one titled group |
| NetworkWM.BuildCache | src/wmd/networkwm-service.ts:168-201 | the loops build the listed cache |
| NetworkWM.FindRun | src/wmd/networkwm-service.ts:312-316 | the scans find the maximal run of tracks sharing the moved track's album and artist |
| NetworkWM.Clamp | src/wmd/networkwm-service.ts:318 | the target is clamped into the run |
| NetworkWM.SplicedEffect | src/wmd/networkwm-service.ts:319 | the splice is a permutation that moves one element and leaves positions outside the range alone |
| NetworkWM.RenumberedEffect | src/wmd/networkwm-service.ts:321-323 | each track of the run gets its offset in the run as number; other tracks keep theirs |
| NetworkWM.RenamedMetadata | src/wmd/networkwm-service.ts:280-291 | a rename sets the title and takes new album and artist only when given, else the track's own or the defaults |
| NetworkWM.AsWrittenAcceptsAnyDash | src/wmd/networkwm-service.ts:373-377 | the guard accepts every title holding a dash |
| NetworkWM.AsWrittenDropsText | src/wmd/networkwm-service.ts:373-377 | a title with two dashes passes the guard and splits into three pieces |
| NetworkWM.AsWrittenCounterexample | src/wmd/networkwm-service.ts:373-377 | `A-B-C` passes the guard and splits in three |
| NetworkWM.GroupTitleSplitsInTwo | src/wmd/networkwm-service.ts:371-377 | a title passing the intended guard splits into exactly artist and album, joined back by the dash |
| NetworkWM.RenameRun | src/wmd/networkwm-service.ts:379-385 | the loop renames the maximal run of tracks sharing the first one's album and artist; it throws exactly when an untagged first track's run reaches the end of the list |
| NetworkWM.UploadTags | src/wmd/networkwm-service.ts:238-267 | uploads take the given tags or the `Unknown` defaults, genre `Genre` |
| NetworkWM.DownloadReports | src/wmd/networkwm-service.ts:354-356 | one progress report per chunk, at its offset, below the total |
| NetworkWM.ReadChunks | src/wmd/networkwm-service.ts:353-357 | the chunk loop copies the whole file into a new buffer, reporting each chunk |
| NetworkWM.NetworkWMService.constructor | src/wmd/networkwm-service.ts:67-80 | a new service has no cache, is clean and has no session |
| NetworkWM.NetworkWMService.ListContent | src/wmd/networkwm-service.ts:154-217 | the cache is rebuilt when dropped, and the listing is the cached disc |
| NetworkWM.NetworkWMService.Flush | src/wmd/networkwm-service.ts:333-337 | flushing clears the dirty flag and the cache |
| NetworkWM.NetworkWMService.CanBeFlushed | src/wmd/networkwm-service.ts:339-341 | the device can be flushed exactly when dirty |
| NetworkWM.NetworkWMService.RenumberRun | src/wmd/networkwm-service.ts:321-323 | the loop renumbers the run |
| NetworkWM.NetworkWMService.MoveTrack | src/wmd/networkwm-service.ts:308-326 | an out-of-range track changes nothing; otherwise the track moves within its album run, the run is renumbered, and the service is dirty |
| NetworkWM.NetworkWMService.MoveInList | src/wmd/networkwm-service.ts:312-325 | the in-range move: find the run, clamp, splice, renumber |
| NetworkWM.NetworkWMService.RenameTrack | src/wmd/networkwm-service.ts:276-296 | an out-of-range track is an error; otherwise its new metadata goes to its system index |
| NetworkWM.NetworkWMService.RenameGroup | src/wmd/networkwm-service.ts:370-388 | with the guard as written, exactly a title without any dash alerts and changes nothing; otherwise every track of the album run is retagged with the first two dash-separated pieces and the cache is dropped, except that an untagged run reaching the end of the list throws after its renames, with no flush and the cache kept |
| NetworkWM.NetworkWMService.PrepareUpload | src/wmd/networkwm-service.ts:224-229 | opens a session, "Invalid state!" when one is open |
| NetworkWM.NetworkWMService.FinalizeUpload | src/wmd/networkwm-service.ts:231-235 | closes the session |
| NetworkWM.NetworkWMService.Upload | src/wmd/networkwm-service.ts:237-274 | MP3, ATRAC3plus and ATRAC3 upload with their tags and frame size, anything else is "Invalid format!" |
| NetworkWM.NetworkWMService.Download | src/wmd/networkwm-service.ts:347-364 | a track with a readable file downloads whole, with chunk progress; a missing file is "Cannot read audio file!" |
| NetworkWM.NetworkWMService.DeleteTracks | src/wmd/networkwm-service.ts:298-306 | the tracks are deleted by system index in the order given until one is out of range |
| LegacyNetMD.DefaultSort | src/wmd/netmd.ts:317 | `sort()` without a comparator is a permutation |
| LegacyNetMD.DefaultSortSorted | src/wmd/netmd.ts:317 | `sort()` orders the numbers by their decimal strings |
| LegacyNetMD.AsWrittenDeleteOrder | src/wmd/netmd.ts:317-318 | the erase order as written is a permutation of the indexes |
| LegacyNetMD.DescendingErasure | src/wmd/netmd.ts:320-324 | erasing in strictly descending order removes exactly the named tracks |
| LegacyNetMD.DescendingIndexesStrict | src/wmd/netmd.ts:317-318 | distinct indexes sorted numerically and reversed are strictly descending |
| LegacyNetMD.CorrectedDeleteOrder | src/wmd/netmd.ts:312-327 | with the numeric descending order, erasing removes exactly the named tracks |
| LegacyNetMD.AsWrittenDeleteOrderCounterexample | src/wmd/netmd.ts:317-322 | for indexes 9 and 10 the order as written erases 9 then 10, removing track 11 instead of 10 |
| LegacyNetMD.LegacyNetMDService.constructor | src/wmd/netmd.ts:121-125 | a new service has no cache and no session |
| LegacyNetMD.LegacyNetMDService.GetServiceCapabilities | src/wmd/netmd.ts:144-171 | download only on the MZ-RH1, eject when possible, factory mode by device name, upload and editing together only when writable |
| LegacyNetMD.LegacyNetMDService.ListContentUsingCache | src/wmd/netmd.ts:173-181 | the cached disc is returned, or the device's is read and cached |
| LegacyNetMD.LegacyNetMDService.ListContent | src/wmd/netmd.ts:209-212 | the device's disc is read and cached |
| LegacyNetMD.LegacyNetMDService.RewriteGroups | src/wmd/netmd.ts:231-235 | a copy of the disc with the new groups is written |
| LegacyNetMD.LegacyNetMDService.RenameTrack | src/wmd/netmd.ts:238-245 | the sanitised titles go to the device and the cache is dropped |
| LegacyNetMD.LegacyNetMDService.RenameGroup | src/wmd/netmd.ts:248-260 | an unknown group changes nothing; otherwise the renamed copy is written |
| LegacyNetMD.LegacyNetMDService.AddGroup | src/wmd/netmd.ts:263-291 | the errors and no-op of `addGroup`; success writes the copy with the new group |
| LegacyNetMD.LegacyNetMDService.DeleteGroup | src/wmd/netmd.ts:294-304 | the group and its tracks are dropped from the cache and written |
| LegacyNetMD.LegacyNetMDService.RenameDisc | src/wmd/netmd.ts:307-310 | the cache is dropped |
| LegacyNetMD.LegacyNetMDService.DeleteTracks | src/wmd/netmd.ts:313-327 | as written, every given index is erased once, in the reverse of the string sort order (so `[9, 10]` is erased 9 first), the groups recomputed after each, the cache dropped |
| LegacyNetMD.LegacyNetMDService.MoveTrack | src/wmd/netmd.ts:351-358 | the recomputed groups are written unless `updateGroups` is false; the cache is dropped |
| LegacyNetMD.LegacyNetMDService.PrepareUpload | src/wmd/netmd.ts:361-365 | a session is opened |
| LegacyNetMD.LegacyNetMDService.FinalizeUpload | src/wmd/netmd.ts:368-373 | an open session is closed and the cache dropped |
| LegacyNetMD.LegacyNetMDService.Upload | src/wmd/netmd.ts:383-385 | uploading without a session is an error |
| Envelopes.Marked | src/macos/server-bootstrap.ts:74-78 | each argument is replaced by its placeholder, position by position |
| Envelopes.MarkedFacts | src/preload.ts:21-26 | no function survives marking, placeholders sit exactly where functions were, data is untouched, and marking twice changes nothing |
| Envelopes.CallbackNameInjective | src/preload.ts:23 | a callback name determines its method name and position |
| Envelopes.LastUnderscore | src/macos/server.ts:87 | the last underscore of a callback name ends the method name |
| BridgeServer.Route | src/macos/server.ts:93 | a call goes to NetworkWM exactly when its service is `nwjs`, to Hi-MD otherwise |
| BridgeServer.Rehydrated | src/macos/server.ts:83-90 | the server's arguments correspond to the envelope's one for one |
| BridgeServer.RehydratedClosures | src/macos/server.ts:83-90 | closures appear exactly at the placeholders, data passes unchanged, and no two closures share a callback name |
| BridgeServer.Rehydrate | src/macos/server.ts:83-90 | the loop rebuilds the arguments into a new array |
| BridgeServer.DispatchedShape | src/macos/server.ts:81-105 | the server writes one callback per closure call, in order, then exactly one return carrying the result or the error |
| BridgeServer.LeadingDigits | src/macos/server.ts:26 | `parseInt` reads the longest digit prefix |
| BridgeServer.PidRoundTrip | src/macos/server.ts:26-31 | the pid written to the pid file reads back as itself |
| BridgeServer.LeadingHexDigits | src/macos/server.ts:26 | after a `0x` prefix `parseInt` reads the longest hexadecimal-digit prefix |
| BridgeServer.ParseIntHex | src/macos/server.ts:26 | a pid file holding `0x` and hexadecimal digits is read as the pid those digits spell, not as 0 |
| BridgeServer.ParseIntHexExample | src/macos/server.ts:26-27 | `0x1f` is read as 31, so pid 31 is signalled |
| BridgeServer.IntermediaryServer.constructor | src/macos/server.ts:9-12 | the socket and pid files sit in the work directory |
| BridgeServer.IntermediaryServer.Unlink | src/macos/server.ts:13-15 | unlinking removes the file when it exists and nothing else |
| BridgeServer.IntermediaryServer.Start | src/macos/server.ts:25-47 | a previous server named in the pid file is signalled, the new pid is written, and the socket is recreated; the unlink log gains the old pid file if there was one, then the socket if it existed |
| BridgeServer.IntermediaryServer.CloseAll | src/macos/server.ts:17-21 | both files are removed and the process exits |
| BridgeServer.IntermediaryServer.OnUsbDisconnect | src/macos/server.ts:111-115 | the server shuts down exactly when a device it serves was connected |
| BridgeServer.IntermediaryServer.HandleCall | src/macos/server.ts:81-106 | the routed service's callbacks and return are written, nothing else changes |
| BridgeConnection.GetSocketNameShape | src/macos/server-bootstrap.ts:7-9 | the socket sits directly in `TMPDIR`, or `/tmp/` when it is unset or empty |
| BridgeConnection.DefaultSocketName | src/macos/server-bootstrap.ts:7-9 | without `TMPDIR` the socket is `/tmp/ewmd-intermediary.sock` |
| BridgeConnection.ReturnSettlement | src/macos/server-bootstrap.ts:49-59 | a return settles the pending call once, with the mismatch, the error or the result in that precedence, and nothing else |
| BridgeConnection.CallbacksSettleNothing | src/macos/server-bootstrap.ts:60-62 | callbacks settle no call |
| BridgeConnection.CallbacksHandled | src/macos/server-bootstrap.ts:60-62 | the handler gets every callback, in order and unchanged |
| BridgeConnection.AnsweredCall | src/macos/server-bootstrap.ts:48-63 | for callbacks closed by one return, the return alone settles and the handler gets every callback |
| BridgeConnection.Connection.constructor | src/macos/server-bootstrap.ts:26-34 | a new connection awaits nothing and has settled nothing |
| BridgeConnection.Connection.SetCallbackHandler | src/main.ts:247 | a callback handler is installed and nothing else changes |
| BridgeConnection.Connection.CallMethod | src/macos/server-bootstrap.ts:72-87 | the new call overwrites the pending slot, is unsettled, and its envelope goes out with placeholders for functions |
| BridgeConnection.Connection.Receive | src/macos/server-bootstrap.ts:48-63 | a return before any call fails; otherwise returns settle the pending call and callbacks reach the handler |
| Preload.RegistrationsExact | src/preload.ts:21-27 | each function argument is registered under its own position's name, and nothing else is |
| Preload.SharedCallbackNames | src/preload.ts:23-30 | two calls of one method in flight share callback names: the later replaces the earlier, and the earlier's cleanup removes it |
| Preload.PreloadBridge.constructor | src/preload.ts:15 | an empty callback table |
| Preload.PreloadBridge.DefineInvokers | src/preload.ts:18-36 | one invoker per defined method name |
| Preload.PreloadBridge.Invoke | src/preload.ts:19-29 | the function arguments are registered and the call goes out with placeholders |
| Preload.PreloadBridge.Resolved | src/preload.ts:29-30 | the call's registrations are deleted |
| Preload.PreloadBridge.OnCallback | src/preload.ts:16 | a callback runs exactly when its name is registered |
| Bridge.MarkTwice | src/main.ts:277 | the main process's second marking changes nothing |
| Bridge.CallbackReachesRenderer | src/main.ts:247-277 | each callback a Hi-MD method makes reaches the renderer's function passed at that position |
| Bridge.CallSettles | src/main.ts:276-282 | the renderer's call settles with the method's result or error, a falsy error fulfilling with `null` |

## Left out

- Device I/O: the netmd-js, himd-js and networkwm-js calls are parameters (what the device returns) or out-parameters (what is sent). Their own behaviour is not part of this model.
- Floating point: `framesToSec`, `translateToDefaultMeasuringModeFrom`, and the `Math.round` of `timeToSeekArgs` (the model takes whole seconds).
- NetworkWM.ListedCache: the used, left and total seconds that `listContent` divides out of the file system's sizes and the default bitrate (`src/wmd/networkwm-service.ts:159-165`) are floating point; the model takes them as the `Space` parameter.
- NetworkWM.ListedTrack: keeps the database's track duration in milliseconds; the source lists `trackDuration / 1000`, fractional seconds that the model's integer durations cannot hold.
- The title sanitising functions are parameters.
- Utils.GetGroupedTracks: requires every titled group to hold a track; the source reads `tracks[0]` of each and would throw otherwise.
- GroupRecompute.RecomputeGroupsAfterTrackMove: same requirement, for the same reason.
- NetMDService.NetMDUSBService.DeleteTracks: same requirement, because it recomputes the groups.
- NetMDService.NetMDUSBService.MoveTrack: same requirement, only when `updateGroups` is not false, because only then does it recompute the groups.
- LegacyNetMD.LegacyNetMDService.DeleteTracks: same requirement, because it recomputes the groups.
- LegacyNetMD.LegacyNetMDService.MoveTrack: same requirement, when the groups are recomputed.
- SocketPath.SocketAndPidSideBySide: requires a uid suffix without `/`; a `SUDO_UID` holding one makes `path.join` place the files elsewhere.
- NetworkWM.FindRun: requires the moved track to have an album or artist; with both undefined the source's scan never stops.
- NetworkWM.NetworkWMService.MoveTrack: same requirement, for the same reason.
- NetworkWM.NetworkWMService.MoveInList: same requirement, for the same reason.
- NetworkWM.NetworkWMService.RenameGroup: requires `groupIndex` to name a track of the list when the title is accepted; for any other index the source sends one rename for an undefined system index and then throws, which the model does not represent.
- NetworkWM download: the MP3 decryption step is a device-library call.
- Hi-MD `renameTrack`, `renameDisc` and `addGroup`: each is a device call followed by a cache drop. The drop is `HiMDService.HiMD.DropCachedContentList`, and the group lookup of `renameGroup` and `deleteGroup` is `HiMDService.HiMD.GroupSlot`.
- HiMDService.HiMD.DeleteTracks: the full service's re-signing (a new secure session zeroing the MACs of the deleted slots) is device I/O and is not modelled.
- HiMDService.HiMD.MoveTrack: the source does not await `rewriteGroups`; since its body has no `await`, it still runs to completion before the move, which is the order the model uses.
- String lengths: JavaScript's `.length` counts UTF-16 code units and the model's `|s|` counts Unicode scalar values, so for a title outside the Basic Multilingual Plane ("🎵" has `.length` 2 and `|s|` 1) HiMDService.Cells (himd.ts:69,87), HiMDService.RawLength and HiMDService.RestrictedCharactersForTitle (himd.ts:162) count fewer characters than the source, and Strings.LexLess orders such characters by scalar value where the source's `<` compares code units (the model applies it only to decimal digit strings, where the two orders agree).
- `wipeDisc`, `ejectDisc`, `formatToHiMD`, `wipeDiscTitleInfo`, `finalize`, `pair` and `connect`: these are device calls plus, at most, a cache drop.
- NetworkWM alerts other than the rename guard, the virtual-group errors, the methods that only throw "not available", and the capability list.
- `HiMDRestrictedService.getRemainingCharactersForTitles` returns `Number.MAX_SAFE_INTEGER`. It is a constant and is not modelled.
- The interface service's `getServiceCapabilities` (`src/wmd/original/services/interfaces/netmd.ts:414-454`) depends on the USB device descriptors; only the legacy service's version is modelled.
- Concurrency: the async mutex, `sleep`, timers, and the msgpack framing of the socket stream.
- `src/macos/server.ts` with `EWWORKDIR` unset: the model takes the work directory as given.
- LegacyNetMD.ErasedInOrder: skips indexes out of range, where the device would report an error.
- Callbacks that arrive after a call resolved: the preload script would call a deleted entry, which throws.
- The legacy service's disc uses `DiscModel.Disc` directly; it has no library conversion.
- `connect` and `disconnect` of the bridge, the `sudo` start of the helper process, and `chmod`.
- The legacy `readRAM` (`src/wmd/netmd.ts:506-517`) is the same loop as the interface service's and is modelled once as `FactoryRam.ReadRam`.
- The preload script does not delete a call's callbacks when the call rejects; the model's `Resolved` is called on resolution only.
- The `[value, null]` pair main.ts sends back to the renderer is modelled as the settlement itself.
- The connect polling loop of main.ts (`src/main.ts:254-266`).
- The `sandbox` protocol handler's `path.normalize` and `decodeURI`.
- NetMD delete mode mutates the input disc's tracks in place; the model works on values.
- `translations.ts`, the user-visible strings of the alerts.
- The socket name of `src/macos/server.ts` (`ewmd-intermediary.sock` in the work directory) differs from that of `src/macos/socket-path.ts` (`ewmd-<uid>.sock`); each is modelled as written.

## Findings

| source | as written | input that shows it | evidently intended | confidence | as-written member | corrected member |
|---|---|---|---|---|---|---|
| src/wmd/networkwm-service.ts:373 | the guard `(newTitle.length - newTitle.replace('-', '').length) !== 1` measures a `replace` that removes only the first dash, so any title with a dash passes | `A-B-C` passes, and the split keeps only `A` and `B`, dropping `C` | accept exactly one dash, so the title splits into artist and album | not executed | NetworkWM.AsWrittenCounterexample | NetworkWM.GroupTitleSplitsInTwo |
| src/wmd/netmd.ts:317 | `indexes.sort()` sorts as strings before `reverse()` | indexes `[9, 10]` erase 9 then 10, which removes tracks 9 and 11 and keeps 10 | numeric descending order, as `src/wmd/original/services/interfaces/netmd.ts:631` does | not executed | LegacyNetMD.AsWrittenDeleteOrderCounterexample | LegacyNetMD.CorrectedDeleteOrder |
