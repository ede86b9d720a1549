/**
 * The course video player of the frontend
 * (liveroom-frontend/src/components/course/VideoPlayer.jsx): the play, mute,
 * volume, skip and playback-rate controls, the `m:ss` time format and bookmarks.
 *
 * The `<video>` element is a record of the fields the controls write, held
 * by the component next to its React state. Times are exact reals. The element
 * follows the HTML media element's rules for `paused` and `ended`: reaching the
 * end pauses it and marks it ended, a seek clears the mark, and `play()` on an
 * ended element first seeks back to the start.
 */
module VideoPlayback {
  import opened Wrappers
  import opened JsText

  /** The fields of the `<video>` element the player reads or writes; `ended` is
      whether playback has reached the end and no seek or `play()` has happened since. */
  datatype VideoElement = VideoElement(currentTime: real, volume: real, playbackRate: real, paused: bool, ended: bool)

  /** What `onBookmarkAdd` receives. */
  datatype Bookmark = Bookmark(time: real, title: string)

  const SkipSeconds: real := 10.0

  /** `Math.min(time + 10, duration)`. */
  function Forward(t: real, duration: real): (r: real)
    ensures r <= duration && r <= t + SkipSeconds
    ensures r == t + SkipSeconds || r == duration
  {
    if t + SkipSeconds < duration then t + SkipSeconds else duration
  }

  /** `Math.max(time - 10, 0)`. */
  function Backward(t: real): (r: real)
    ensures r >= 0.0 && r >= t - SkipSeconds
    ensures r == t - SkipSeconds || r == 0.0
    ensures t >= 0.0 ==> r <= t
  {
    if t - SkipSeconds > 0.0 then t - SkipSeconds else 0.0
  }

  /** A skip forward that was not cut short by the end is undone by a skip back, and a
      skip back that was not cut short by the start is undone by a skip forward
      within the video. */
  lemma SkipsCancel(t: real, duration: real)
    ensures 0.0 <= t && t + SkipSeconds <= duration ==> Backward(Forward(t, duration)) == t
    ensures SkipSeconds <= t <= duration ==> Forward(Backward(t), duration) == t
  {
  }

  // ---------------------------------------------------------------- time format

  /** `Math.trunc` (JavaScript's `%` truncates its quotient toward zero). */
  function Trunc(x: real): (r: int)
  {
    if x >= 0.0 then x.Floor else -((-x).Floor)
  }

  /** `x % 60`: the remainder of a truncating division, with the sign of `x`. */
  function Rem60(x: real): (r: real)
    ensures x >= 0.0 ==> 0.0 <= r < 60.0 && r == x - 60.0 * (x / 60.0).Floor as real
  {
    x - 60.0 * Trunc(x / 60.0) as real
  }

  /** `formatTime(time)`: `${Math.floor(time / 60)}:${Math.floor(time % 60)
      .toString().padStart(2, '0')}`. */
  function FormatTime(t: real): string
  {
    IntToString((t / 60.0).Floor) + ":" + PadStart2(IntToString(Rem60(t).Floor))
  }

  /** A clock reading: minutes, a colon and two-digit seconds. */
  function Clock(m: nat, s: nat): string
    requires s < 60
  {
    NatToString(m) + ":" + PadStart2(NatToString(s))
  }

  /** For a non-negative time the format is a clock reading of the whole minutes
      and the whole seconds past them, the seconds in 0..59. */
  lemma FormatTimeIsClock(t: real)
    requires t >= 0.0
    ensures 0 <= (t / 60.0).Floor && 0 <= Rem60(t).Floor < 60
    ensures (t / 60.0).Floor as real <= t / 60.0 < (t / 60.0).Floor as real + 1.0
    ensures Rem60(t).Floor as real <= t - 60.0 * (t / 60.0).Floor as real < Rem60(t).Floor as real + 1.0
    ensures FormatTime(t) == Clock((t / 60.0).Floor, Rem60(t).Floor)
  {
  }

  /** The seconds field of a clock reading is exactly two digits. */
  lemma TwoDigitSeconds(s: nat)
    requires s < 60
    ensures |PadStart2(NatToString(s))| == 2
    ensures forall k :: 0 <= k < 2 ==> IsDigit(PadStart2(NatToString(s))[k])
    ensures DigitsValue(PadStart2(NatToString(s))) == s
  {
    var d := NatToString(s);
    var p := PadStart2(d);
    NatToStringValue(s);
    if |d| == 1 {
      assert p == ['0', d[0]];
      assert p[..1] == ['0'];
      assert ['0'][..0] == [];
      assert d[..0] == [];
    } else {
      assert d == NatToString(s / 10) + [DigitChar(s % 10)];
    }
  }

  /** Reading a clock back: the digits before the colon are the minutes, the two
      after it the seconds. */
  lemma ReadClock(m: nat, s: nat)
    requires s < 60
    ensures var c := Clock(m, s);
      && |c| >= 4 && c[|c| - 3] == ':'
      && (forall k :: 0 <= k < |c| - 3 ==> IsDigit(c[k]))
      && (forall k :: |c| - 2 <= k < |c| ==> IsDigit(c[k]))
      && DigitsValue(c[..|c| - 3]) == m
      && DigitsValue(c[|c| - 2..]) == s
  {
    var c := Clock(m, s);
    TwoDigitSeconds(s);
    NatToStringValue(m);
    assert c[..|c| - 3] == NatToString(m);
    assert c[|c| - 2..] == PadStart2(NatToString(s));
  }

  /** For a whole number of seconds `n`, the format is the clock reading of `n / 60`
      minutes and `n % 60` seconds, so minutes * 60 + seconds gives `n` back. */
  lemma WholeSecondsRoundTrip(n: nat)
    ensures FormatTime(n as real) == Clock(n / 60, n % 60)
    ensures (n / 60) * 60 + n % 60 == n
  {
    var t := n as real;
    var q, r := n / 60, n % 60;
    assert t / 60.0 == q as real + r as real / 60.0;
    assert (t / 60.0).Floor == q;
    assert Rem60(t) == r as real;
    FormatTimeIsClock(t);
  }

  /** The title of a bookmark taken at `t`. */
  function BookmarkTitle(t: real): string
  {
    "Bookmark at " + FormatTime(t)
  }

  /** A bookmark taken at a non-negative time is titled with its clock reading. */
  lemma BookmarkTitleIsClock(t: real)
    requires t >= 0.0
    ensures BookmarkTitle(t) == "Bookmark at " + Clock((t / 60.0).Floor, Rem60(t).Floor)
  {
    FormatTimeIsClock(t);
  }

  // ---------------------------------------------------------------- player

  /** The player's React state and the `<video>` element it drives. */
  class Player {
    var video: VideoElement
    var isPlaying: bool
    var currentTime: real
    var duration: real
    var volume: real
    var isMuted: bool
    var playbackRate: real
    var showSettings: bool
    /** Whether the `onBookmarkAdd` prop was given. */
    const hasBookmarkHandler: bool

    /** What the controls maintain: the element plays at the stored volume unless muted,
        volumes within the slider's range, times non-negative, the element paused
        exactly when the state says not playing, and an ended element paused. */
    predicate Valid()
      reads this
    {
      && 0.0 <= volume <= 1.0
      && video.volume == (if isMuted then 0.0 else volume)
      && 0.0 <= video.currentTime && 0.0 <= duration
      && video.paused == !isPlaying
      && (video.ended ==> video.paused)
    }

    /** A fresh player: paused at 0, no duration yet, full volume, normal speed. */
    constructor (hasBookmarkHandler: bool)
      ensures Valid()
      ensures video == VideoElement(0.0, 1.0, 1.0, true, false)
      ensures !isPlaying && currentTime == 0.0 && duration == 0.0
      ensures volume == 1.0 && !isMuted && playbackRate == 1.0 && !showSettings
      ensures this.hasBookmarkHandler == hasBookmarkHandler
    {
      video := VideoElement(0.0, 1.0, 1.0, true, false);
      isPlaying, currentTime, duration := false, 0.0, 0.0;
      volume, isMuted, playbackRate, showSettings := 1.0, false, 1.0, false;
      this.hasBookmarkHandler := hasBookmarkHandler;
    }

    /** `loadedmetadata`: the element's duration becomes known. */
    method LoadedMetadata(d: real)
      requires Valid() && d >= 0.0
      modifies this
      ensures Valid() && duration == d
      ensures video == old(video) && isPlaying == old(isPlaying) && currentTime == old(currentTime)
      ensures volume == old(volume) && isMuted == old(isMuted)
      ensures playbackRate == old(playbackRate) && showSettings == old(showSettings)
    {
      duration := d;
    }

    /** `timeupdate`: the element has reached `t` and the state follows it. */
    method TimeUpdate(t: real)
      requires Valid() && t >= 0.0
      modifies this
      ensures Valid() && video == old(video).(currentTime := t) && currentTime == t
      ensures isPlaying == old(isPlaying) && duration == old(duration)
      ensures volume == old(volume) && isMuted == old(isMuted)
      ensures playbackRate == old(playbackRate) && showSettings == old(showSettings)
    {
      video := video.(currentTime := t);
      currentTime := t;
    }

    /** `ended`: the element has stopped at the end; the state stops playing. */
    method Ended()
      requires Valid()
      modifies this
      ensures Valid() && !isPlaying && video == old(video).(paused := true, ended := true)
      ensures currentTime == old(currentTime) && duration == old(duration)
      ensures volume == old(volume) && isMuted == old(isMuted)
      ensures playbackRate == old(playbackRate) && showSettings == old(showSettings)
    {
      video := video.(paused := true, ended := true);
      isPlaying := false;
    }

    /** `togglePlay`: pauses the element if the state says playing, plays it
        otherwise, and flips `isPlaying`. Playing an ended element restarts it from
        the beginning. */
    method TogglePlay()
      requires Valid()
      modifies this
      ensures Valid()
      ensures isPlaying == !old(isPlaying)
      ensures old(isPlaying) ==> video == old(video).(paused := true)
      ensures !old(isPlaying) && !old(video).ended ==> video == old(video).(paused := false)
      ensures !old(isPlaying) && old(video).ended ==>
        video == old(video).(currentTime := 0.0, paused := false, ended := false)
      ensures currentTime == old(currentTime) && duration == old(duration)
      ensures volume == old(volume) && isMuted == old(isMuted)
      ensures playbackRate == old(playbackRate) && showSettings == old(showSettings)
    {
      if isPlaying {
        video := video.(paused := true);
      } else if video.ended {
        video := video.(currentTime := 0.0, paused := false, ended := false);
      } else {
        video := video.(paused := false);
      }
      isPlaying := !isPlaying;
    }

    /** `handleVolumeChange`: the slider's value (0 to 1) becomes the stored and the
        element's volume; the player is muted exactly when it is 0. */
    method HandleVolumeChange(newVolume: real)
      requires Valid() && 0.0 <= newVolume <= 1.0
      modifies this
      ensures Valid()
      ensures volume == newVolume && video == old(video).(volume := newVolume)
      ensures isMuted <==> newVolume == 0.0
      ensures isPlaying == old(isPlaying) && currentTime == old(currentTime) && duration == old(duration)
      ensures playbackRate == old(playbackRate) && showSettings == old(showSettings)
    {
      volume := newVolume;
      video := video.(volume := newVolume);
      isMuted := newVolume == 0.0;
    }

    /** `toggleMute`: muting silences the element, unmuting restores the stored
        volume, which itself never changes. */
    method ToggleMute()
      requires Valid()
      modifies this
      ensures Valid()
      ensures isMuted == !old(isMuted)
      ensures volume == old(volume)
      ensures video == old(video).(volume := if old(isMuted) then old(volume) else 0.0)
      ensures isPlaying == old(isPlaying) && currentTime == old(currentTime) && duration == old(duration)
      ensures playbackRate == old(playbackRate) && showSettings == old(showSettings)
    {
      if isMuted {
        video := video.(volume := volume);
        isMuted := false;
      } else {
        video := video.(volume := 0.0);
        isMuted := true;
      }
    }

    /** `skipForward`: ten seconds on, but not past `duration`. */
    method SkipForward()
      requires Valid()
      modifies this
      ensures Valid()
      ensures video == old(video).(currentTime := Forward(old(video).currentTime, duration), ended := false)
      ensures isPlaying == old(isPlaying) && currentTime == old(currentTime) && duration == old(duration)
      ensures volume == old(volume) && isMuted == old(isMuted)
      ensures playbackRate == old(playbackRate) && showSettings == old(showSettings)
    {
      video := video.(currentTime := Forward(video.currentTime, duration), ended := false);
    }

    /** `skipBackward`: ten seconds back, but not before 0. */
    method SkipBackward()
      requires Valid()
      modifies this
      ensures Valid()
      ensures video == old(video).(currentTime := Backward(old(video).currentTime), ended := false)
      ensures isPlaying == old(isPlaying) && currentTime == old(currentTime) && duration == old(duration)
      ensures volume == old(volume) && isMuted == old(isMuted)
      ensures playbackRate == old(playbackRate) && showSettings == old(showSettings)
    {
      video := video.(currentTime := Backward(video.currentTime), ended := false);
    }

    /** The settings button: opens or closes the rate menu. */
    method ToggleSettings()
      requires Valid()
      modifies this
      ensures Valid() && showSettings == !old(showSettings)
      ensures video == old(video) && isPlaying == old(isPlaying) && currentTime == old(currentTime)
      ensures duration == old(duration) && volume == old(volume) && isMuted == old(isMuted)
      ensures playbackRate == old(playbackRate)
    {
      showSettings := !showSettings;
    }

    /** `changePlaybackRate(rate)`: the element and the state take the rate and the
        menu closes. */
    method ChangePlaybackRate(rate: real)
      requires Valid()
      modifies this
      ensures Valid()
      ensures playbackRate == rate && video == old(video).(playbackRate := rate) && !showSettings
      ensures isPlaying == old(isPlaying) && currentTime == old(currentTime) && duration == old(duration)
      ensures volume == old(volume) && isMuted == old(isMuted)
    {
      video := video.(playbackRate := rate);
      playbackRate := rate;
      showSettings := false;
    }

    /** `addBookmark`: what it hands to `onBookmarkAdd`, if that was given: the
        state's current time and its formatted title. Nothing in the player
        changes. */
    method AddBookmark() returns (b: Option<Bookmark>)
      ensures b.Some? <==> hasBookmarkHandler
      ensures b.Some? ==> b.value.time == currentTime && b.value.title == BookmarkTitle(currentTime)
      ensures b.Some? && currentTime >= 0.0 ==>
        b.value.title == "Bookmark at " + Clock((currentTime / 60.0).Floor, Rem60(currentTime).Floor)
    {
      if currentTime >= 0.0 {
        BookmarkTitleIsClock(currentTime);
      }
      if hasBookmarkHandler {
        b := Some(Bookmark(currentTime, BookmarkTitle(currentTime)));
      } else {
        b := None;
      }
    }
  }
}
