/**
 * The viewer script the live-viewer component injects into the page: its
 * mutable state (`currentIndex`, `currentStream`, `isPlayback`,
 * `currentPlaybackId`) and the click and response handlers that change it.
 * Beside that state the model keeps what the handlers do outside it: the
 * source each camera image requests, and the requests sent to the playback
 * endpoints.
 */
module Viewer {
  import opened Maybe
  import opened JsText
  import opened StreamSelection
  import opened CameraIndex
  import opened PlaybackWindow

  /** What a camera image requests through the live proxy. */
  datatype ImageSource =
    | LiveStream(url: string)
      /** The camera's recording between two `yyyymmddhhmmss` stamps. */
    | Recording(channel: int, start: string, stop: string)

  /** A request sent to the playback endpoints. */
  datatype PlaybackRequest =
    | CreatePlayback(cameraId: string, startTime: string, endTime: string)
    | DeletePlayback(id: string)

  /** How playback starts on a channel: an RTMP camera asks the server for a file, an RTSP camera switches its image to the recording. */
  datatype PlaybackStart = Fetch(request: PlaybackRequest) | ShowRecording(source: ImageSource)

  /** What `setPlaybackForChannel` starts for channel `ch` whose stream slot is `base`. */
  function PlaybackFor(base: string, ch: int, w: Window): PlaybackStart
    requires ValidWindow(w)
  {
    var dtFmt := CompactDate(w.date);
    var from := CompactTime(w.from);
    var to := CompactTime(w.to);
    if StartsWith(base, "rtmp://") then
      Fetch(CreatePlayback(LastPiece(base, '/'), IsoLocal(dtFmt, from), IsoLocal(dtFmt, to)))
    else
      ShowRecording(Recording(ch, dtFmt + from, dtFmt + to))
  }

  /**
   * An RTMP camera's request names the camera by the last path segment of its
   * URL and carries the checked window's date and times as
   * `yyyy-mm-ddThh:mm:00`; an RTSP camera's recording runs between
   * `yyyymmddhhmm00` stamps of the same window.
   */
  lemma PlaybackForCarriesWindow(base: string, ch: int, w: Window)
    requires ValidWindow(w)
    ensures var s := PlaybackFor(base, ch, w);
      StartsWith(base, "rtmp://") ==>
        s.Fetch? && s.request.CreatePlayback?
        && s.request.cameraId == LastPiece(base, '/')
        && '/' !in s.request.cameraId && base == base[..|base| - |s.request.cameraId|] + s.request.cameraId
        && (|s.request.cameraId| == |base| || base[|base| - |s.request.cameraId| - 1] == '/')
        && s.request.startTime == DateValue(w.date) + "T" + TimeValue(w.from) + ":00"
        && s.request.endTime == DateValue(w.date) + "T" + TimeValue(w.to) + ":00"
    ensures var s := PlaybackFor(base, ch, w);
      !StartsWith(base, "rtmp://") ==>
        s.ShowRecording? && s.source.channel == ch
        && s.source.start == Pad4(w.date.year) + Pad2(w.date.month) + Pad2(w.date.day) + Pad2(w.from.hour) + Pad2(w.from.minute) + "00"
        && s.source.stop == Pad4(w.date.year) + Pad2(w.date.month) + Pad2(w.date.day) + Pad2(w.to.hour) + Pad2(w.to.minute) + "00"
  {
    IsoLocalRoundTrip(w.date, w.from);
    IsoLocalRoundTrip(w.date, w.to);
    CompactDateDigits(w.date);
    CompactTimeDigits(w.from);
    CompactTimeDigits(w.to);
  }

  /** The images after starting playback `s` on channel `ch`. */
  function ImagesAfter(s: PlaybackStart, ch: int, images: map<int, ImageSource>): map<int, ImageSource> {
    if s.ShowRecording? then images[ch := s.source] else images
  }

  /** The requests sent after starting playback `s`. */
  function RequestsAfter(s: PlaybackStart, requests: seq<PlaybackRequest>): seq<PlaybackRequest> {
    if s.Fetch? then requests + [s.request] else requests
  }

  /** The images after channels 1..k have been switched, in order, to `sources[0..k)`. */
  function Switched(images: map<int, ImageSource>, sources: seq<ImageSource>, k: nat): map<int, ImageSource>
    requires k <= |sources|
  {
    if k == 0 then images else Switched(images, sources, k - 1)[k := sources[k - 1]]
  }

  /** Channels 1..k show their sources. */
  lemma {:induction false} SwitchedShows(images: map<int, ImageSource>, sources: seq<ImageSource>, k: nat)
    requires k <= |sources|
    ensures forall ch :: 1 <= ch <= k ==> ch in Switched(images, sources, k) && Switched(images, sources, k)[ch] == sources[ch - 1]
  {
    if k > 0 {
      SwitchedShows(images, sources, k - 1);
    }
  }

  /** Every image outside channels 1..k is as it was. */
  lemma {:induction false} SwitchedKeepsOthers(images: map<int, ImageSource>, sources: seq<ImageSource>, k: nat)
    requires k <= |sources|
    ensures forall ch :: !(1 <= ch <= k) ==>
      (ch in Switched(images, sources, k) <==> ch in images)
      && (ch in Switched(images, sources, k) ==> Switched(images, sources, k)[ch] == images[ch])
  {
    if k > 0 {
      SwitchedKeepsOthers(images, sources, k - 1);
    }
  }

  /** Every slot's live stream at tier `tier`, in slot order. */
  function LiveSources(streams: seq<string>, tier: string): (sources: seq<ImageSource>)
    ensures |sources| == |streams|
    ensures forall j :: 0 <= j < |streams| ==> sources[j] == LiveStream(GetLiveUrl(streams, j, tier))
  {
    seq(|streams|, j requires 0 <= j < |streams| => LiveStream(GetLiveUrl(streams, j, tier)))
  }

  /** The quality a button selects: `this.dataset.stream || 'main'`. */
  function ButtonTier(requested: Option<string>): (tier: string)
    ensures tier != ""
    ensures requested.Some? && requested.value != "" ==> tier == requested.value
    ensures requested.None? || requested.value == "" ==> tier == "main"
  {
    if requested.None? || requested.value == "" then "main" else requested.value
  }

  class LiveViewer {
    /** The per-camera stream URLs the script unpacked; `camCount` is their number. */
    const streamList: seq<string>
    var currentIndex: int
    var currentStream: string
    var isPlayback: bool
    var currentPlaybackId: Option<string>
    /** The source each camera image requests, by channel number (`cam01` is channel 1). */
    var images: map<int, ImageSource>
    /** The requests sent to the playback endpoints, oldest first. */
    var requests: seq<PlaybackRequest>

    ghost predicate Valid()
      reads this
    {
      streamList != [] && 0 <= currentIndex < |streamList|
    }

    /** `getActiveChannel()`: channels are numbered from 1. */
    function ActiveChannel(): (ch: int)
      reads this
      requires Valid()
      ensures 1 <= ch <= |streamList|
    {
      currentIndex + 1
    }

    /**
     * The script as injected for a non-empty camera list: the stream list
     * unpacked from its comma-joined form, the starting index, live mode at the
     * `main` tier, no playback file, and the first image showing the current
     * camera.
     */
    constructor (cams: seq<Camera>, selected: SelectedIndex)
      requires cams != []
      ensures Valid()
      ensures streamList == ScriptStreamList(cams)
      ensures currentIndex == InitialIndex(cams, selected)
      ensures currentStream == "main" && !isPlayback && currentPlaybackId == None
      ensures images == map[1 := LiveStream(GetLiveUrl(streamList, currentIndex, "main"))]
      ensures requests == []
    {
      StreamListRoundTrip(cams);
      streamList := ScriptStreamList(cams);
      currentIndex := InitialIndex(cams, selected);
      currentStream := "main";
      isPlayback := false;
      currentPlaybackId := None;
      images := map[];
      requests := [];
      new;
      SetSingleLiveStream(currentIndex);
    }

    /** What starting playback on the active channel does for window `w`. */
    function ActivePlayback(w: Window): PlaybackStart
      reads this`currentIndex
      requires ValidWindow(w)
    {
      PlaybackFor(BaseStream(streamList, currentIndex), currentIndex + 1, w)
    }

    /** `setSingleLiveStream(index)`: the first image plays slot `index` at the current tier. */
    method SetSingleLiveStream(index: int)
      modifies this`images
      ensures images == old(images)[1 := LiveStream(GetLiveUrl(streamList, index, currentStream))]
    {
      images := images[1 := LiveStream(GetLiveUrl(streamList, index, currentStream))];
    }

    /** `setAllLiveStreams()`: image `i + 1` plays slot `i` at the current tier, for every slot. */
    method SetAllLiveStreams()
      modifies this`images
      ensures forall ch :: 1 <= ch <= |streamList| ==>
        ch in images && images[ch] == LiveStream(GetLiveUrl(streamList, ch - 1, currentStream))
      ensures forall ch :: !(1 <= ch <= |streamList|) ==>
        (ch in images <==> ch in old(images)) && (ch in images ==> images[ch] == old(images)[ch])
    {
      ghost var sources := LiveSources(streamList, currentStream);
      SwitchAll(sources);
      SwitchedShows(old(images), sources, |streamList|);
      SwitchedKeepsOthers(old(images), sources, |streamList|);
    }

    /** The loop of `setAllLiveStreams`: image `i + 1` switches to slot `i`'s live stream, for each slot in turn. */
    method SwitchAll(ghost sources: seq<ImageSource>)
      requires |sources| == |streamList|
      requires forall j :: 0 <= j < |streamList| ==> sources[j] == LiveStream(GetLiveUrl(streamList, j, currentStream))
      modifies this`images
      ensures images == Switched(old(images), sources, |streamList|)
    {
      var i := 0;
      while i < |streamList|
        invariant 0 <= i <= |streamList|
        invariant images == Switched(old(images), sources, i)
      {
        var source := LiveStream(GetLiveUrl(streamList, i, currentStream));
        assert source == sources[i];
        assert Switched(old(images), sources, i + 1) == Switched(old(images), sources, i)[i + 1 := sources[i]];
        images := images[i + 1 := source];
        i := i + 1;
      }
    }

    /** The next-slide button; it is not blocked during playback. */
    method SlideNext()
      requires Valid()
      modifies this`currentIndex, this`images
      ensures Valid()
      ensures currentIndex == Next(old(currentIndex), |streamList|)
      ensures images == old(images)[1 := LiveStream(GetLiveUrl(streamList, currentIndex, currentStream))]
    {
      currentIndex := Next(currentIndex, |streamList|);
      SetSingleLiveStream(currentIndex);
    }

    /** The previous-slide button; it is not blocked during playback. */
    method SlidePrev()
      requires Valid()
      modifies this`currentIndex, this`images
      ensures Valid()
      ensures currentIndex == Prev(old(currentIndex), |streamList|)
      ensures images == old(images)[1 := LiveStream(GetLiveUrl(streamList, currentIndex, currentStream))]
    {
      currentIndex := Prev(currentIndex, |streamList|);
      SetSingleLiveStream(currentIndex);
    }

    /**
     * A quality button. During playback it is refused and nothing changes.
     * Otherwise the tier becomes the button's, and the single view or, in
     * another layout, every image switches to that tier.
     */
    method SelectQuality(requested: Option<string>, singleLayout: bool)
      requires Valid()
      modifies this`currentStream, this`images
      ensures Valid()
      ensures old(isPlayback) ==> currentStream == old(currentStream) && images == old(images)
      ensures !isPlayback ==> currentStream == ButtonTier(requested)
      ensures !isPlayback && singleLayout ==>
        images == old(images)[1 := LiveStream(GetLiveUrl(streamList, currentIndex, currentStream))]
      ensures !isPlayback && !singleLayout ==>
        forall ch :: 1 <= ch <= |streamList| ==>
          ch in images && images[ch] == LiveStream(GetLiveUrl(streamList, ch - 1, currentStream))
      ensures !isPlayback && !singleLayout ==>
        forall ch :: !(1 <= ch <= |streamList|) ==>
          (ch in images <==> ch in old(images)) && (ch in images ==> images[ch] == old(images)[ch])
    {
      if isPlayback {
        return;
      }
      currentStream := ButtonTier(requested);
      if singleLayout {
        SetSingleLiveStream(currentIndex);
      } else {
        SetAllLiveStreams();
      }
    }

    /**
     * `setPlaybackForChannel(ch, ...)`: only the active channel, and only when
     * its image and video elements exist, starts playback; every other call
     * changes nothing.
     */
    method SetPlaybackForChannel(ch: int, w: Window, elementsPresent: bool)
      requires Valid() && ValidWindow(w)
      modifies this`images, this`requests
      ensures Valid()
      ensures ch != ActiveChannel() || !elementsPresent ==> images == old(images) && requests == old(requests)
      ensures ch == ActiveChannel() && elementsPresent ==>
        images == ImagesAfter(ActivePlayback(w), ch, old(images))
        && requests == RequestsAfter(ActivePlayback(w), old(requests))
    {
      if ch != currentIndex + 1 {
        return;
      }
      if !elementsPresent {
        return;
      }
      var s := PlaybackFor(BaseStream(streamList, ch - 1), ch, w);
      assert s == ActivePlayback(w);
      StartPlayback(s, ch);
    }

    /** Starts playback `s` on channel `ch`: a request to fetch the file, or the recording shown in its image. */
    method StartPlayback(s: PlaybackStart, ch: int)
      modifies this`images, this`requests
      ensures images == ImagesAfter(s, ch, old(images)) && requests == RequestsAfter(s, old(requests))
    {
      match s
      case Fetch(request) =>
        requests := requests + [request];
      case ShowRecording(source) =>
        images := images[ch := source];
    }

    /**
     * The OK button's dispatch in a layout other than the single view: every
     * channel from 1 to `camCount` in turn, of which only the active one passes
     * the guard.
     */
    method SetPlaybackForAllChannels(w: Window, elementsPresent: bool)
      requires Valid() && ValidWindow(w)
      modifies this`images, this`requests
      ensures Valid()
      ensures !elementsPresent ==> images == old(images) && requests == old(requests)
      ensures elementsPresent ==>
        images == ImagesAfter(ActivePlayback(w), ActiveChannel(), old(images))
        && requests == RequestsAfter(ActivePlayback(w), old(requests))
    {
      var ch := 1;
      while ch <= |streamList|
        invariant 1 <= ch <= |streamList| + 1
        invariant ch <= ActiveChannel() || !elementsPresent ==> images == old(images) && requests == old(requests)
        invariant ch > ActiveChannel() && elementsPresent ==>
          images == ImagesAfter(ActivePlayback(w), ActiveChannel(), old(images))
          && requests == RequestsAfter(ActivePlayback(w), old(requests))
      {
        SetPlaybackForChannel(ch, w, elementsPresent);
        ch := ch + 1;
      }
    }

    /**
     * The playback dialog's OK button. A window the checks refuse changes
     * nothing. An accepted one starts playback on the active channel alone,
     * whether the layout addresses that channel or every channel in turn, and
     * the viewer enters playback mode.
     */
    method ConfirmPlayback(form: PlaybackForm, now: int, singleLayout: bool, elementsPresent: bool)
      returns (r: Result<Window, WindowError>)
      requires Valid() && WellFormedForm(form)
      modifies this`images, this`requests, this`isPlayback
      ensures Valid()
      ensures r == CheckWindow(form, now)
      ensures r.Err? ==> isPlayback == old(isPlayback) && images == old(images) && requests == old(requests)
      ensures r.Ok? ==> isPlayback
      ensures r.Ok? && !elementsPresent ==> images == old(images) && requests == old(requests)
      ensures r.Ok? && elementsPresent ==>
        images == ImagesAfter(ActivePlayback(r.value), ActiveChannel(), old(images))
        && requests == RequestsAfter(ActivePlayback(r.value), old(requests))
    {
      r := CheckWindow(form, now);
      if r.Err? {
        return;
      }
      var w := r.value;
      assert ValidWindow(w);
      if singleLayout {
        SetPlaybackForChannel(ActiveChannel(), w, elementsPresent);
      } else {
        SetPlaybackForAllChannels(w, elementsPresent);
      }
      isPlayback := true;
    }

    /** A playback file arrived: its id is the last segment of its URL. */
    method PlaybackLoaded(videoUrl: string)
      modifies this`currentPlaybackId
      ensures currentPlaybackId == Some(LastPiece(videoUrl, '/'))
    {
      currentPlaybackId := Some(LastPiece(videoUrl, '/'));
    }

    /** `restoreToLive()`: live mode at the `main` tier, the first image back on the current camera. */
    method RestoreToLive()
      modifies this`isPlayback, this`currentStream, this`images
      ensures !isPlayback && currentStream == "main"
      ensures images == old(images)[1 := LiveStream(GetLiveUrl(streamList, currentIndex, "main"))]
    {
      isPlayback := false;
      currentStream := "main";
      SetSingleLiveStream(currentIndex);
    }

    /** No playback file could be had: back to live. */
    method PlaybackFailed()
      modifies this`isPlayback, this`currentStream, this`images
      ensures !isPlayback && currentStream == "main"
      ensures images == old(images)[1 := LiveStream(GetLiveUrl(streamList, currentIndex, "main"))]
    {
      RestoreToLive();
    }

    /**
     * `handlePlaybackClose()`: asks the server to delete the playback file
     * when there is a non-empty id, forgets the id, and returns to live at the
     * `main` tier on the same camera.
     */
    method ClosePlayback()
      requires Valid()
      modifies this`requests, this`currentPlaybackId, this`isPlayback, this`currentStream, this`images
      ensures Valid() && currentIndex == old(currentIndex)
      ensures requests == old(requests) +
        (if old(currentPlaybackId).Some? && old(currentPlaybackId).value != "" then [DeletePlayback(old(currentPlaybackId).value)] else [])
      ensures currentPlaybackId == None && !isPlayback && currentStream == "main"
      ensures images == old(images)[1 := LiveStream(GetLiveUrl(streamList, currentIndex, "main"))]
    {
      if currentPlaybackId.Some? && currentPlaybackId.value != "" {
        requests := requests + [DeletePlayback(currentPlaybackId.value)];
      }
      currentPlaybackId := None;
      RestoreToLive();
    }
  }

  /**
   * OK on an RTMP camera followed by Back before the server answers: the one
   * request sent asks for the camera's playback file, and Back sends no
   * delete because no playback id has been recorded yet.
   */
  method ConfirmThenBack(v: LiveViewer, form: PlaybackForm, now: int) returns (ghost req: PlaybackRequest)
    requires v.Valid() && WellFormedForm(form) && CheckWindow(form, now).Ok?
    requires v.currentPlaybackId == None
    requires StartsWith(BaseStream(v.streamList, v.currentIndex), "rtmp://")
    modifies v
    ensures v.Valid() && v.currentIndex == old(v.currentIndex)
    ensures !v.isPlayback && v.currentPlaybackId == None
    ensures v.requests == old(v.requests) + [req]
    ensures req.CreatePlayback? && req.cameraId == LastPiece(BaseStream(v.streamList, v.currentIndex), '/')
  {
    var r := v.ConfirmPlayback(form, now, true, true);
    ghost var base := BaseStream(v.streamList, v.currentIndex);
    PlaybackForCarriesWindow(base, v.currentIndex + 1, r.value);
    ghost var start := v.ActivePlayback(r.value);
    assert start == PlaybackFor(base, v.currentIndex + 1, r.value);
    req := start.request;
    assert v.requests == RequestsAfter(start, old(v.requests)) == old(v.requests) + [req];
    v.ClosePlayback();
  }

  /**
   * The handlers do not track whether a playback request is still in flight:
   * if the user goes back to live before the server answers, the answer
   * still records the new file's id while the viewer is live, and no delete
   * for that file is sent. The camera is an RTMP one, whose playback starts
   * with a request to the server.
   */
  method LateAnswerAfterClose(v: LiveViewer, form: PlaybackForm, now: int, videoUrl: string)
    requires v.Valid() && WellFormedForm(form) && CheckWindow(form, now).Ok?
    requires v.currentPlaybackId == None
    requires StartsWith(BaseStream(v.streamList, v.currentIndex), "rtmp://")
    modifies v
    ensures !v.isPlayback && v.currentPlaybackId == Some(LastPiece(videoUrl, '/'))
    ensures |v.requests| == |old(v.requests)| + 1
    ensures v.requests[|old(v.requests)|].CreatePlayback?
    ensures v.requests[|old(v.requests)|].cameraId == LastPiece(BaseStream(v.streamList, v.currentIndex), '/')
    ensures forall k :: |old(v.requests)| <= k < |v.requests| ==> !v.requests[k].DeletePlayback?
  {
    ghost var req := ConfirmThenBack(v, form, now);
    v.PlaybackLoaded(videoUrl);
    forall k | |old(v.requests)| <= k < |v.requests| ensures !v.requests[k].DeletePlayback? {
      assert v.requests[k] == req;
    }
  }
}
