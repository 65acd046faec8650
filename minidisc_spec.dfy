/**
 * The recording formats a MiniDisc service offers (`MinidiscSpec`,
 * `DefaultMinidiscSpec`) and the compatibility conversions between the
 * app's disc record and the one the NetMD library speaks: the library
 * counts durations and free space in 1/512 units and names the codec by
 * an `Encoding` instead of a codec family and bitrate.
 */
module MinidiscSpecs {
  import opened Common
  import opened Strings
  import opened DiscModel

  /** One recording format: a codec family, its bitrates and display names. */
  datatype RecordingCodec = RecordingCodec(
    codec: string,
    defaultBitrate: int,
    availableBitrates: seq<int>,
    userFriendlyName: Option<string>,
    displayBadgeFriendlyName: Option<string>)

  datatype MeasurementUnits = Bytes | Frames

  /** What a service can do, as it reports to the user interface. */
  datatype Capability =
    | ContentList | PlaybackControl | MetadataEdit | TrackUpload | TrackDownload
    | DiscEject | FactoryMode | HimdTitles | FullWidthSupport | NativeMonoUpload | HimdFormat

  /** The constant part of a `MinidiscSpec`. */
  datatype Spec = Spec(
    availableFormats: seq<RecordingCodec>,
    defaultFormat: (nat, nat),
    specName: string,
    measurementUnits: MeasurementUnits)

  /** A `[format, bitrate]` pair that points at an existing format and bitrate. */
  predicate ValidFormatIndex(spec: Spec, index: (nat, nat)) {
    index.0 < |spec.availableFormats| && index.1 < |spec.availableFormats[index.0].availableBitrates|
  }

  /** The spec offers this codec at this bitrate. */
  predicate Offers(spec: Spec, c: Codec) {
    exists f :: f in spec.availableFormats && f.codec == c.codec && c.bitrate in f.availableBitrates
  }

  /** `getCodecFromIndex`. */
  function CodecFromIndex(spec: Spec, index: (nat, nat)): (c: Codec)
    requires ValidFormatIndex(spec, index)
    ensures Offers(spec, c)
  {
    var f := spec.availableFormats[index.0];
    assert f in spec.availableFormats;
    Codec(f.codec, f.availableBitrates[index.1])
  }

  /** `getDefaultCodec`. */
  function DefaultCodec(spec: Spec): (c: Codec)
    requires ValidFormatIndex(spec, spec.defaultFormat)
    ensures Offers(spec, c)
  {
    CodecFromIndex(spec, spec.defaultFormat)
  }

  /** `getDefaultCodecName`: the friendly name of the default format, else its codec family. */
  function DefaultCodecName(spec: Spec): string
    requires spec.defaultFormat.0 < |spec.availableFormats|
  {
    var f := spec.availableFormats[spec.defaultFormat.0];
    if f.userFriendlyName.Some? then f.userFriendlyName.value else f.codec
  }

  /** `DefaultMinidiscSpec`: SP, mono SP, LP2 and LP4, defaulting to SP. */
  function DefaultMinidiscSpec(): Spec {
    Spec(
      [ RecordingCodec("SPS", 292, [292], Some("SP"), None),
        RecordingCodec("SPM", 146, [146], Some("MONO"), Some("SP")),
        RecordingCodec("AT3", 132, [132], Some("LP2"), None),
        RecordingCodec("AT3", 66, [66], Some("LP4"), None)],
      (0, 0), "MD", Frames)
  }

  /** The default NetMD format is stereo SP at 292 kbps, shown as `SP`. */
  lemma DefaultSpecDefaults()
    ensures ValidFormatIndex(DefaultMinidiscSpec(), DefaultMinidiscSpec().defaultFormat)
    ensures DefaultCodec(DefaultMinidiscSpec()) == Codec("SPS", 292)
    ensures DefaultCodecName(DefaultMinidiscSpec()) == "SP"
  {
  }

  /** The four codecs a NetMD disc can hold, as the default spec lists them. */
  lemma DefaultSpecOffers(c: Codec)
    ensures Offers(DefaultMinidiscSpec(), c) <==>
      c in [Codec("SPS", 292), Codec("SPM", 146), Codec("AT3", 132), Codec("AT3", 66)]
  {
    var fs := DefaultMinidiscSpec().availableFormats;
    if Offers(DefaultMinidiscSpec(), c) {
      var f :| f in fs && f.codec == c.codec && c.bitrate in f.availableBitrates;
    } else {
      assert fs[0] in fs && fs[1] in fs && fs[2] in fs && fs[3] in fs;
    }
  }

  /**
   * `translateDefaultMeasuringModeTo`: a duration in SP frames becomes one
   * in the given mode's frames, `floor(292 / bitrate)` times as long.
   */
  function TranslateDefaultMeasuringModeTo(mode: Codec, duration: int): (r: int)
    requires mode.bitrate > 0
  {
    (292 / mode.bitrate) * duration
  }

  /** SP keeps the time, mono SP and LP2 double it, LP4 quadruples it. */
  lemma TranslateDefaultFactors(duration: int)
    ensures TranslateDefaultMeasuringModeTo(Codec("SPS", 292), duration) == duration
    ensures TranslateDefaultMeasuringModeTo(Codec("SPM", 146), duration) == 2 * duration
    ensures TranslateDefaultMeasuringModeTo(Codec("AT3", 132), duration) == 2 * duration
    ensures TranslateDefaultMeasuringModeTo(Codec("AT3", 66), duration) == 4 * duration
  {
  }

  /** A lower bitrate never gives less recording time than SP, for a non-negative duration. */
  lemma TranslateDefaultNotShorter(mode: Codec, duration: int)
    requires 0 < mode.bitrate <= 292 && duration >= 0
    ensures TranslateDefaultMeasuringModeTo(mode, duration) >= duration
  {
    assert 292 / mode.bitrate >= 1;
    assert (292 / mode.bitrate) * duration >= 1 * duration;
  }

  // The NetMD library's own records.

  /** The library's `Encoding`. */
  datatype Encoding = SP | LP2 | LP4

  datatype LibTrack = LibTrack(
    index: int,
    title: Option<string>,
    fullWidthTitle: Option<string>,
    duration: int,
    channel: int,
    encoding: Encoding,
    protectedFlag: TrackFlag,
    album: Option<string>,
    artist: Option<string>)

  datatype LibGroup = LibGroup(
    index: int,
    title: Option<string>,
    fullWidthTitle: Option<string>,
    tracks: seq<LibTrack>)

  datatype LibDisc = LibDisc(
    title: string,
    fullWidthTitle: string,
    writable: bool,
    writeProtected: bool,
    used: int,
    left: int,
    total: int,
    trackCount: int,
    groups: seq<LibGroup>)

  /** `Math.ceil(x / 512)` on an integer. */
  function CeilDiv512(x: int): (r: int)
    ensures x <= 512 * r < x + 512
  {
    -((-x) / 512)
  }

  /** The codec a library encoding stands for (the table in `convertTrackToWMD`). */
  function EncodingToCodec(e: Encoding, channel: int): Codec {
    match e
    case SP => if channel == 1 then Codec("SPM", 146) else Codec("SPS", 292)
    case LP2 => Codec("AT3", 132)
    case LP4 => Codec("AT3", 66)
  }

  /** The encoding `convertTrackToNJS` picks: `SP*` is SP, 132 kbps is LP2, anything else LP4. */
  function CodecToEncoding(c: Codec): Encoding {
    if StartsWith(c.codec, "SP") then SP else if c.bitrate == 132 then LP2 else LP4
  }

  /** The codecs that name a library encoding exactly, given the track's channel count. */
  predicate Canonical(c: Codec, channel: int) {
    || (c == Codec("SPS", 292) && channel != 1)
    || (c == Codec("SPM", 146) && channel == 1)
    || c == Codec("AT3", 132)
    || c == Codec("AT3", 66)
  }

  lemma CodecFamilies()
    ensures StartsWith("SPS", "SP") && StartsWith("SPM", "SP") && !StartsWith("AT3", "SP")
  {
    assert "SPS"[..2] == "SP" && "SPM"[..2] == "SP";
    assert "AT3"[..2][0] == 'A';
  }

  /** Library to app to library keeps the encoding. */
  lemma EncodingRoundTrip(e: Encoding, channel: int)
    ensures CodecToEncoding(EncodingToCodec(e, channel)) == e
  {
    CodecFamilies();
  }

  /** App to library to app keeps the codec exactly when the codec is canonical. */
  lemma CodecRoundTrip(c: Codec, channel: int)
    ensures EncodingToCodec(CodecToEncoding(c), channel) == c <==> Canonical(c, channel)
  {
    CodecFamilies();
  }

  /** `convertTrackToNJS`. */
  function TrackToLib(t: Track): (r: LibTrack)
    ensures r.duration == 512 * t.duration
  {
    LibTrack(t.index, t.title, t.fullWidthTitle, t.duration * 512, t.channel,
      CodecToEncoding(t.encoding), t.protectedFlag, t.album, t.artist)
  }

  /** `convertTrackToWMD`. */
  function TrackToApp(n: LibTrack): (r: Track)
    ensures n.duration <= 512 * r.duration < n.duration + 512
  {
    Track(n.index, n.title, n.fullWidthTitle, CeilDiv512(n.duration), n.channel,
      EncodingToCodec(n.encoding, n.channel), n.protectedFlag, n.album, n.artist)
  }

  function GroupToLib(g: Group): (r: LibGroup)
    ensures |r.tracks| == |g.tracks|
  {
    LibGroup(g.index, g.title, g.fullWidthTitle, seq(|g.tracks|, i requires 0 <= i < |g.tracks| => TrackToLib(g.tracks[i])))
  }

  function GroupToApp(g: LibGroup): (r: Group)
    ensures |r.tracks| == |g.tracks|
  {
    Group(g.index, g.title, g.fullWidthTitle, seq(|g.tracks|, i requires 0 <= i < |g.tracks| => TrackToApp(g.tracks[i])))
  }

  /** `convertDiscToNJS`: free and total space in 1/512 units; `used` is copied as it is. */
  function DiscToLib(d: Disc): (r: LibDisc)
    ensures r.left == 512 * d.left && r.total == 512 * d.total && r.used == d.used
    ensures |r.groups| == |d.groups|
  {
    LibDisc(d.title, d.fullWidthTitle, d.writable, d.writeProtected, d.used, d.left * 512, d.total * 512,
      d.trackCount, seq(|d.groups|, i requires 0 <= i < |d.groups| => GroupToLib(d.groups[i])))
  }

  /** `convertDiscToWMD`. */
  function DiscToApp(d: LibDisc): (r: Disc)
    ensures d.left <= 512 * r.left < d.left + 512 && d.total <= 512 * r.total < d.total + 512
    ensures r.used == d.used && |r.groups| == |d.groups|
  {
    Disc(d.title, d.fullWidthTitle, d.writable, d.writeProtected, d.used, CeilDiv512(d.left), CeilDiv512(d.total),
      d.trackCount, seq(|d.groups|, i requires 0 <= i < |d.groups| => GroupToApp(d.groups[i])))
  }

  /** Every track of the disc has a canonical codec. */
  predicate AllCanonical(d: Disc) {
    forall i, j :: 0 <= i < |d.groups| && 0 <= j < |d.groups[i].tracks| ==>
      Canonical(d.groups[i].tracks[j].encoding, d.groups[i].tracks[j].channel)
  }

  lemma CeilDiv512Times(x: int)
    ensures CeilDiv512(512 * x) == x
  {
    var r := CeilDiv512(512 * x);
    assert 512 * x <= 512 * r < 512 * x + 512;
    assert 512 * (r - x) < 512;
  }

  /** App to library to app keeps the duration, and the whole track exactly when its codec is canonical. */
  lemma TrackRoundTrip(t: Track)
    ensures TrackToApp(TrackToLib(t)).duration == t.duration
    ensures TrackToApp(TrackToLib(t)) == t <==> Canonical(t.encoding, t.channel)
  {
    CeilDiv512Times(t.duration);
    CodecRoundTrip(t.encoding, t.channel);
  }

  /** Library to app to library keeps the encoding, and rounds the duration up to a multiple of 512. */
  lemma LibTrackRoundTrip(n: LibTrack)
    ensures var r := TrackToLib(TrackToApp(n));
      && r.encoding == n.encoding
      && n.duration <= r.duration < n.duration + 512
      && (r == n <==> n.duration % 512 == 0)
  {
    EncodingRoundTrip(n.encoding, n.channel);
    var r := TrackToLib(TrackToApp(n));
    if n.duration % 512 == 0 {
      CeilDiv512Times(n.duration / 512);
    }
  }

  lemma GroupRoundTrip(g: Group)
    ensures GroupToApp(GroupToLib(g)) == g <==>
      forall j :: 0 <= j < |g.tracks| ==> Canonical(g.tracks[j].encoding, g.tracks[j].channel)
  {
    var r := GroupToApp(GroupToLib(g));
    forall j | 0 <= j < |g.tracks| ensures r.tracks[j] == TrackToApp(TrackToLib(g.tracks[j])) {
    }
    forall j | 0 <= j < |g.tracks| ensures r.tracks[j] == g.tracks[j] <==> Canonical(g.tracks[j].encoding, g.tracks[j].channel) {
      TrackRoundTrip(g.tracks[j]);
    }
    if forall j :: 0 <= j < |g.tracks| ==> Canonical(g.tracks[j].encoding, g.tracks[j].channel) {
      assert r.tracks == g.tracks;
    }
  }

  /**
   * App to library to app keeps free and total space and every group and
   * track, and gives back the same disc exactly when every codec on it is canonical.
   */
  lemma DiscRoundTrip(d: Disc)
    ensures DiscToApp(DiscToLib(d)).left == d.left && DiscToApp(DiscToLib(d)).total == d.total
    ensures DiscToApp(DiscToLib(d)) == d <==> AllCanonical(d)
  {
    CeilDiv512Times(d.left);
    CeilDiv512Times(d.total);
    var r := DiscToApp(DiscToLib(d));
    forall i | 0 <= i < |d.groups|
      ensures r.groups[i] == GroupToApp(GroupToLib(d.groups[i]))
      ensures r.groups[i] == d.groups[i] <==>
        forall j :: 0 <= j < |d.groups[i].tracks| ==> Canonical(d.groups[i].tracks[j].encoding, d.groups[i].tracks[j].channel)
    {
      GroupRoundTrip(d.groups[i]);
    }
    if AllCanonical(d) {
      assert r.groups == d.groups;
    }
    if r == d {
      forall i, j | 0 <= i < |d.groups| && 0 <= j < |d.groups[i].tracks|
        ensures Canonical(d.groups[i].tracks[j].encoding, d.groups[i].tracks[j].channel)
      {
        assert r.groups[i] == d.groups[i];
      }
    }
  }
}
