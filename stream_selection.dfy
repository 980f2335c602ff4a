/**
 * Which upstream URL the live viewer plays for a camera, how the per-camera
 * URLs travel into the injected viewer script as one comma-separated string,
 * and how a quality tier rewrites an RTSP URL (`getLiveUrl`).
 */
module StreamSelection {
  import opened Maybe
  import opened JsText

  /** The part of a camera record the viewer reads to choose a stream. */
  datatype Camera = Camera(rtspUrl: Option<string>, rtmpUrl: Option<string>)

  /** `c.rtmpUrl && c.rtmpUrl.trim() !== ''` */
  predicate HasRtmp(c: Camera) {
    c.rtmpUrl.Some? && Trim(c.rtmpUrl.value) != ""
  }

  /** Why `loadStream` gives up without touching the page. */
  datatype LoadError = NoCamera | NoStreamUrl

  /**
   * The URL `loadStream(i)` hands to the live proxy: the RTMP URL when it is
   * not blank, otherwise the RTSP URL; no camera at `i`, or an absent or empty
   * RTSP URL in the fallback, stops it.
   */
  function LoadStreamSource(cams: seq<Camera>, i: int): (r: Result<string, LoadError>)
    ensures r == Err(NoCamera) <==> !(0 <= i < |cams|)
    ensures r.Ok? ==> r.value != ""
    ensures r.Ok? ==> r.value == cams[i].rtmpUrl.GetOr("") || r.value == cams[i].rtspUrl.GetOr("")
  {
    if !(0 <= i < |cams|) then Err(NoCamera)
    else
      var cam := cams[i];
      var streamUrl := if HasRtmp(cam) then cam.rtmpUrl else cam.rtspUrl;
      if streamUrl.None? || streamUrl.value == "" then Err(NoStreamUrl)
      else Ok(streamUrl.value)
  }

  /**
   * The RTMP URL is chosen exactly when it has a non-whitespace character;
   * otherwise the RTSP URL is used, and its absence or emptiness is the error.
   */
  lemma LoadStreamPrefersRtmp(cams: seq<Camera>, i: int)
    requires 0 <= i < |cams|
    ensures var c := cams[i];
      c.rtmpUrl.Some? && !IsBlank(c.rtmpUrl.value) ==> LoadStreamSource(cams, i) == Ok(c.rtmpUrl.value)
    ensures var c := cams[i];
      (c.rtmpUrl.None? || IsBlank(c.rtmpUrl.value)) ==>
        LoadStreamSource(cams, i) == if c.rtspUrl.Some? && c.rtspUrl.value != "" then Ok(c.rtspUrl.value) else Err(NoStreamUrl)
  {
    if cams[i].rtmpUrl.Some? {
      TrimEmptyIffBlank(cams[i].rtmpUrl.value);
    }
  }

  /** The entry the script's stream list holds for a camera (`rtmpUrl` if not blank, else `rtspUrl || ''`). */
  function PackedSource(c: Camera): string {
    if HasRtmp(c) then c.rtmpUrl.value else c.rtspUrl.GetOr("")
  }

  /** The list entry is what `loadStream` would play, or the empty string where it gives up. */
  lemma PackedSourceMatchesLoad(cams: seq<Camera>, i: int)
    requires 0 <= i < |cams|
    ensures PackedSource(cams[i]) == match LoadStreamSource(cams, i) case Ok(u) => u case Err(_) => ""
  {
  }

  /** One entry per camera, in order (`cams.map(...)`). */
  function StreamEntries(cams: seq<Camera>): (entries: seq<string>)
    ensures |entries| == |cams|
    ensures forall i :: 0 <= i < |cams| ==> entries[i] == PackedSource(cams[i])
  {
    if cams == [] then [] else StreamEntries(cams[..|cams| - 1]) + [PackedSource(cams[|cams| - 1])]
  }

  /** The comma-joined string written into the viewer script. */
  function PackedStreamList(cams: seq<Camera>): string {
    Join(StreamEntries(cams), ',')
  }

  /** The script's `streamList`: the packed string split on commas again. */
  function ScriptStreamList(cams: seq<Camera>): (streams: seq<string>)
    ensures |streams| >= 1
  {
    Split(PackedStreamList(cams), ',')
  }

  /**
   * For a non-empty camera list the script gets one entry per camera, each the
   * camera's chosen URL, exactly when no chosen URL holds a comma; every comma
   * inside a URL adds one more entry, so `camCount` is never below the number
   * of cameras.
   */
  lemma {:induction false} StreamListRoundTrip(cams: seq<Camera>)
    requires cams != []
    ensures ScriptStreamList(cams) == StreamEntries(cams) <==> FreeOf(StreamEntries(cams), ',')
    ensures |ScriptStreamList(cams)| == |cams| <==> FreeOf(StreamEntries(cams), ',')
    ensures |ScriptStreamList(cams)| >= |cams|
  {
    var entries := StreamEntries(cams);
    SplitJoinLength(entries, ',');
    if FreeOf(entries, ',') {
      SplitJoin(entries, ',');
    }
  }

  /** The slot a stream list gives for position `i`: `streamList[i] || ''`. */
  function BaseStream(streams: seq<string>, i: int): string {
    if 0 <= i < |streams| then streams[i] else ""
  }

  /**
   * The tier rewrite's pattern as the browser receives it. The source writes
   * `/\.264$/` inside a template literal, where `\.` is cooked to `.`, so the
   * injected script tests `/.264$/`: any character other than a line
   * terminator, then `264`, at the end.
   */
  predicate EndsLikeH264(base: string) {
    |base| >= 4 && base[|base| - 3..] == "264" && !IsLineTerminator(base[|base| - 4])
  }

  /** `base.replace(/.264$/, replacement)`: the four matched characters give way to `replacement`. */
  function ReplaceH264Suffix(base: string, replacement: string): string {
    if EndsLikeH264(base) then base[..|base| - 4] + replacement else base
  }

  /** `getLiveUrl(i, type)`: the URL to play for stream slot `i` at quality tier `tier`. */
  function GetLiveUrl(streams: seq<string>, i: int, tier: string): (r: string)
    ensures !(0 <= i < |streams|) ==> r == ""
    ensures StartsWith(BaseStream(streams, i), "rtmp://") ==> r == BaseStream(streams, i)
  {
    var base := BaseStream(streams, i);
    if StartsWith(base, "rtmp://") then base
    else if tier == "sub" then ReplaceH264Suffix(base, "_third.264")
    else if tier == "third" then ReplaceH264Suffix(base, "_fourth.264")
    else base
  }

  /**
   * What each tier does to a slot: an `rtmp://` URL, the `main` tier, any
   * unknown tier and a URL without the suffix are left as they are; `sub` and
   * `third` keep everything before the last four characters and end the URL
   * in `_third.264` and `_fourth.264`.
   */
  lemma GetLiveUrlTiers(streams: seq<string>, i: int, tier: string)
    ensures var base, r := BaseStream(streams, i), GetLiveUrl(streams, i, tier);
      (StartsWith(base, "rtmp://") || (tier != "sub" && tier != "third") || !EndsLikeH264(base)) ==> r == base
    ensures var base, r := BaseStream(streams, i), GetLiveUrl(streams, i, tier);
      !StartsWith(base, "rtmp://") && EndsLikeH264(base) && tier == "sub" ==>
        r[..|base| - 4] == base[..|base| - 4] && r[|base| - 4..] == "_third.264"
    ensures var base, r := BaseStream(streams, i), GetLiveUrl(streams, i, tier);
      !StartsWith(base, "rtmp://") && EndsLikeH264(base) && tier == "third" ==>
        r[..|base| - 4] == base[..|base| - 4] && r[|base| - 4..] == "_fourth.264"
  {
  }

  /**
   * On a URL ending in `.264` the rewrite is the intended literal one
   * (`cam.264` becomes `cam_third.264`); because the dot is a wildcard, a URL
   * ending in any other character before `264` (`camx264`) is rewritten the
   * same way, losing that character.
   */
  lemma SubTierRewritesAnyCharBefore264(prefix: string, c: char)
    requires !IsLineTerminator(c)
    requires !StartsWith(prefix + [c] + "264", "rtmp://")
    ensures GetLiveUrl([prefix + [c] + "264"], 0, "sub") == prefix + "_third.264"
    ensures GetLiveUrl([prefix + [c] + "264"], 0, "third") == prefix + "_fourth.264"
  {
    var base := prefix + [c] + "264";
    assert base[|base| - 3..] == "264" && base[|base| - 4] == c;
    assert base[..|base| - 4] == prefix;
  }

  /** For an RTSP URL the pattern matches, the three tiers name three different streams. */
  lemma TiersAreDistinct(streams: seq<string>, i: int)
    requires !StartsWith(BaseStream(streams, i), "rtmp://") && EndsLikeH264(BaseStream(streams, i))
    ensures GetLiveUrl(streams, i, "main") != GetLiveUrl(streams, i, "sub")
    ensures GetLiveUrl(streams, i, "main") != GetLiveUrl(streams, i, "third")
    ensures GetLiveUrl(streams, i, "sub") != GetLiveUrl(streams, i, "third")
  {
  }
}
