/** The video element and `videoStartSettings`: where a video starts, the skim
    mode that plays a few seconds and jumps ahead, and the settings inputs with
    their clamps. Times are seconds as reals. */
module Playback {
  import opened Wrappers
  import opened Text

  /** The `video-start` radio values `beginning`, `fixed` and `percentage`. */
  datatype StartMode = Beginning | Fixed | Percentage

  // ---------------------------------------------------------------- settings clamps

  /** `parseInt(text) || fallback`: `NaN` and `0` are both falsy. */
  function ParseIntOr(text: string, fallback: int): int
  {
    var parsed := ParseInt(text);
    if parsed.Some? && parsed.value != 0 then parsed.value else fallback
  }

  /** `Math.max(0, parseInt(value) || 0)`: a positive number is taken as is,
      anything else starts at the beginning. */
  function FixedTimeSetting(text: string): (seconds: nat)
    ensures var parsed := ParseInt(text);
      if parsed.Some? && parsed.value > 0 then seconds == parsed.value else seconds == 0
  {
    var n := ParseIntOr(text, 0);
    if n < 0 then 0 else n
  }

  /** `Math.min(100, Math.max(0, parseInt(value) || 0))`: always a percentage. */
  function PercentageSetting(text: string): (percent: nat)
    ensures percent <= 100
    ensures var parsed := ParseInt(text);
      if parsed.Some? && 0 < parsed.value <= 100 then percent == parsed.value
      else if parsed.Some? && parsed.value > 100 then percent == 100
      else percent == 0
  {
    var n := ParseIntOr(text, 0);
    if n < 0 then 0 else if n > 100 then 100 else n
  }

  /** `Math.max(1, parseInt(value) || fallback)` for the two skim spans. */
  function SpanSetting(text: string, fallback: nat): (span: int)
    requires fallback >= 1
    ensures span >= 1
    ensures var parsed := ParseInt(text);
      if parsed.None? || parsed.value == 0 then span == fallback
      else if parsed.value < 0 then span == 1
      else span == parsed.value
  {
    var n := ParseIntOr(text, fallback);
    if n < 1 then 1 else n
  }

  /** The default play span (seconds played between jumps) and skip span. */
  const DefaultPlaySpan: nat := 3
  const DefaultSkipSpan: nat := 10

  /** An input of `0` is falsy, so it gives the default span rather than the
      minimum of 1. */
  lemma ZeroSpanGivesDefault(fallback: nat)
    requires fallback >= 1
    ensures SpanSetting("0", fallback) == fallback
  {
    var zero := "0";
    assert AllDigits(zero) && DigitsValue(zero) == 0;
    ParseIntOfDigits(zero);
  }

  // ---------------------------------------------------------------- start time

  /** `setVideoStartTime`'s choice: a fixed offset only when the video is longer
      than it, otherwise the beginning; or a percentage of the duration. */
  function StartTime(mode: StartMode, fixedTime: nat, percentage: nat, duration: real): (start: real)
    ensures 0.0 <= duration && percentage <= 100 ==> 0.0 <= start <= duration
    ensures mode == Beginning ==> start == 0.0
    ensures mode == Fixed && duration > fixedTime as real ==> start == fixedTime as real
    ensures mode == Fixed && duration <= fixedTime as real ==> start == 0.0
    ensures mode == Percentage ==> start * 100.0 == duration * percentage as real
  {
    match mode
    case Beginning => 0.0
    case Fixed => if duration > fixedTime as real then fixedTime as real else 0.0
    case Percentage =>
      assert 0.0 <= duration && percentage <= 100 ==> duration * percentage as real <= duration * 100.0;
      duration * percentage as real / 100.0
  }

  // ---------------------------------------------------------------- skim

  /** What one `timeupdate` does to a skimming video. */
  datatype SkimOutcome =
    | Idle           // skimming off or not active: nothing happens
    | Wait           // still inside the play span
    | Jump(to: real) // seek ahead and restart the play span there
    | Finish         // the jump would reach the end: stop skimming and pause

  /** `handleSkimming`'s decision. */
  function SkimDecision(enabled: bool, active: bool, currentTime: real, lastSkipTime: real,
                        playDuration: int, skipDuration: int, duration: real): (o: SkimOutcome)
    ensures o == Idle <==> !(enabled && active)
    ensures o.Jump? ==>
      (o.to == currentTime + skipDuration as real && o.to < duration
       && currentTime >= lastSkipTime + playDuration as real)
    ensures o == Finish ==>
      (currentTime >= lastSkipTime + playDuration as real && currentTime + skipDuration as real >= duration)
    ensures o == Wait ==> currentTime < lastSkipTime + playDuration as real
  {
    if !enabled || !active then Idle
    else if currentTime < lastSkipTime + playDuration as real then Wait
    else if currentTime + skipDuration as real >= duration then Finish
    else Jump(currentTime + skipDuration as real)
  }

  /** A jump always moves forward by at least a second and lands inside the
      video; the next jump waits for a full play span after it. */
  lemma SkimJumpsForward(enabled: bool, active: bool, currentTime: real, lastSkipTime: real,
                         playDuration: int, skipDuration: int, duration: real, later: real)
    requires playDuration >= 1 && skipDuration >= 1
    requires SkimDecision(enabled, active, currentTime, lastSkipTime, playDuration, skipDuration, duration).Jump?
    ensures var t := SkimDecision(enabled, active, currentTime, lastSkipTime, playDuration, skipDuration, duration).to;
      currentTime + 1.0 <= t < duration
      && (later < t + playDuration as real ==>
          SkimDecision(enabled, active, later, t, playDuration, skipDuration, duration) == Wait)
  {
  }

  // ---------------------------------------------------------------- the player

  /** The video element together with `videoStartSettings`. */
  class Player {
    var src: string
    var currentTime: real
    var duration: real
    var paused: bool
    var playbackRate: real
    /** The `loadedmetadata` listeners registered with `{ once: true }`, oldest
        first; `true` marks the undo handler's listener, which also calls `play()`. */
    var pendingStarts: seq<bool>

    var mode: StartMode
    var fixedTime: nat
    var percentage: nat
    var playbackSpeed: real
    var skimEnabled: bool
    var playDuration: int
    var skipDuration: int
    var skimActive: bool
    var lastSkipTime: real

    /** The settings stay within the ranges their inputs clamp them to. */
    predicate Valid()
      reads this`percentage, this`playDuration, this`skipDuration
    {
      percentage <= 100 && playDuration >= 1 && skipDuration >= 1
    }

    /** The initial `videoStartSettings` and an empty video element. */
    constructor()
      ensures Valid()
      ensures mode == Beginning && fixedTime == 0 && percentage == 0 && playbackSpeed == 1.0
      ensures !skimEnabled && playDuration == 2 && skipDuration == 10 && !skimActive
      ensures src == "" && paused && pendingStarts == []
    {
      src := "";
      currentTime := 0.0;
      duration := 0.0;
      paused := true;
      playbackRate := 1.0;
      pendingStarts := [];
      mode := Beginning;
      fixedTime := 0;
      percentage := 0;
      playbackSpeed := 1.0;
      skimEnabled := false;
      playDuration := 2;
      skipDuration := 10;
      skimActive := false;
      lastSkipTime := 0.0;
    }

    /** `stopCurrentMedia()`: pause, clear the source and stop skimming. Setting
        the source runs the media element's load algorithm, which forgets the
        duration (NaN, here 0), rewinds the position to 0 and puts the rate back
        to the default rate, 1. */
    method Stop()
      modifies this`paused, this`src, this`skimActive, this`duration, this`currentTime, this`playbackRate
      ensures paused && src == "" && !skimActive
      ensures duration == 0.0 && currentTime == 0.0 && playbackRate == 1.0
    {
      paused := true;
      src := "";
      skimActive := false;
      duration := 0.0;
      currentTime := 0.0;
      playbackRate := 1.0;
    }

    /** `videoElement.src = file` followed by `handleVideoStart()` (`withPlay` false)
        or by the undo handler's own listener that also plays (`withPlay` true).
        Until the new metadata arrives the duration is unknown, the position 0 and
        the rate the default rate, 1. */
    method Load(file: string, withPlay: bool)
      modifies this`src, this`pendingStarts, this`duration, this`currentTime, this`playbackRate
      ensures src == file && pendingStarts == old(pendingStarts) + [withPlay]
      ensures duration == 0.0 && currentTime == 0.0 && playbackRate == 1.0
      ensures paused == old(paused) && skimActive == old(skimActive)
    {
      src := file;
      pendingStarts := pendingStarts + [withPlay];
      duration := 0.0;
      currentTime := 0.0;
      playbackRate := 1.0;
    }

    /** `startSkimming()`. */
    method StartSkimming()
      modifies this`skimActive, this`lastSkipTime, this`paused
      ensures skimActive && lastSkipTime == currentTime && !paused
    {
      skimActive := true;
      lastSkipTime := currentTime;
      paused := false;
    }

    /** `setVideoStartTime()`: seek to the chosen start, apply the speed, then
        skim from there or simply play. */
    method SetVideoStartTime()
      modifies this`currentTime, this`playbackRate, this`skimActive, this`lastSkipTime, this`paused
      ensures currentTime == StartTime(mode, fixedTime, percentage, duration)
      ensures playbackRate == playbackSpeed && !paused
      ensures skimEnabled ==> skimActive && lastSkipTime == currentTime
      ensures !skimEnabled ==> skimActive == old(skimActive) && lastSkipTime == old(lastSkipTime)
    {
      var start := StartTime(mode, fixedTime, percentage, duration);
      currentTime := start;
      playbackRate := playbackSpeed;
      if skimEnabled {
        lastSkipTime := start;
        StartSkimming();
      } else {
        paused := false;
      }
    }

    /** The `loadedmetadata` event: the duration becomes known and every pending
        once-listener runs in registration order and is dropped. */
    method LoadedMetadata(d: real)
      modifies this`duration, this`pendingStarts, this`currentTime, this`playbackRate, this`skimActive
      modifies this`lastSkipTime, this`paused
      ensures duration == d && pendingStarts == []
      ensures old(pendingStarts) != [] ==>
        currentTime == StartTime(mode, fixedTime, percentage, d) && playbackRate == playbackSpeed && !paused
        && (skimEnabled ==> skimActive && lastSkipTime == currentTime)
      ensures old(pendingStarts) == [] ==>
        currentTime == old(currentTime) && paused == old(paused) && skimActive == old(skimActive)
        && lastSkipTime == old(lastSkipTime) && playbackRate == old(playbackRate)
    {
      duration := d;
      var listeners := pendingStarts;
      pendingStarts := [];
      var i := 0;
      while i < |listeners|
        invariant 0 <= i <= |listeners|
        invariant duration == d && pendingStarts == []
        invariant i > 0 ==>
          currentTime == StartTime(mode, fixedTime, percentage, d) && playbackRate == playbackSpeed && !paused
          && (skimEnabled ==> skimActive && lastSkipTime == currentTime)
        invariant i == 0 ==>
          currentTime == old(currentTime) && paused == old(paused) && skimActive == old(skimActive)
          && lastSkipTime == old(lastSkipTime) && playbackRate == old(playbackRate)
      {
        SetVideoStartTime();
        if listeners[i] {
          paused := false;
        }
        i := i + 1;
      }
    }

    /** `handleSkimming()` on a `timeupdate` event. */
    method HandleSkimming()
      modifies this`currentTime, this`lastSkipTime, this`skimActive, this`paused
      ensures var o := SkimDecision(old(skimEnabled), old(skimActive), old(currentTime), old(lastSkipTime),
                                    playDuration, skipDuration, duration);
        match o
        case Idle | Wait =>
          currentTime == old(currentTime) && skimActive == old(skimActive)
          && lastSkipTime == old(lastSkipTime) && paused == old(paused)
        case Jump(t) =>
          currentTime == t && lastSkipTime == t && skimActive == old(skimActive) && paused == old(paused)
        case Finish =>
          !skimActive && paused && currentTime == old(currentTime) && lastSkipTime == old(lastSkipTime)
    {
      if !skimEnabled || !skimActive {
        return;
      }
      if currentTime >= lastSkipTime + playDuration as real {
        var nextTime := currentTime + skipDuration as real;
        if nextTime >= duration {
          skimActive := false;
          paused := true;
        } else {
          currentTime := nextTime;
          lastSkipTime := nextTime;
        }
      }
    }

    /** Playback reaches time `t` and the element fires `timeupdate`. */
    method TimeUpdate(t: real)
      requires Valid()
      modifies this`currentTime, this`lastSkipTime, this`skimActive, this`paused
      ensures var o := SkimDecision(skimEnabled, old(skimActive), t, old(lastSkipTime),
                                    playDuration, skipDuration, duration);
        match o
        case Idle | Wait =>
          currentTime == t && skimActive == old(skimActive)
          && lastSkipTime == old(lastSkipTime) && paused == old(paused)
        case Jump(to) =>
          currentTime == to && lastSkipTime == to && t + 1.0 <= currentTime < duration
          && skimActive == old(skimActive) && paused == old(paused)
        case Finish =>
          !skimActive && paused && currentTime == t && lastSkipTime == old(lastSkipTime)
    {
      currentTime := t;
      HandleSkimming();
    }

    /** The `video-start` radio buttons. */
    method SetMode(m: StartMode)
      modifies this`mode
      ensures mode == m
    {
      mode := m;
    }

    /** The fixed start time input. */
    method SetFixedTime(text: string)
      modifies this`fixedTime
      ensures fixedTime == FixedTimeSetting(text)
    {
      fixedTime := FixedTimeSetting(text);
    }

    /** The percentage start input. */
    method SetPercentage(text: string)
      requires Valid()
      modifies this`percentage
      ensures Valid() && percentage == PercentageSetting(text)
    {
      percentage := PercentageSetting(text);
    }

    /** The skim play span input. */
    method SetPlayDuration(text: string)
      requires Valid()
      modifies this`playDuration
      ensures Valid() && playDuration == SpanSetting(text, DefaultPlaySpan)
    {
      playDuration := SpanSetting(text, DefaultPlaySpan);
    }

    /** The skim skip span input. */
    method SetSkipDuration(text: string)
      requires Valid()
      modifies this`skipDuration
      ensures Valid() && skipDuration == SpanSetting(text, DefaultSkipSpan)
    {
      skipDuration := SpanSetting(text, DefaultSkipSpan);
    }

    /** The skim checkbox: turning it on while a video with a known, non-zero
        duration is loaded starts skimming from the current time. */
    method SetSkimEnabled(checked: bool)
      modifies this`skimEnabled, this`skimActive, this`lastSkipTime, this`paused
      ensures skimEnabled == checked
      ensures checked && duration != 0.0 ==> skimActive && lastSkipTime == currentTime && !paused
      ensures !(checked && duration != 0.0) ==> skimActive == old(skimActive) && paused == old(paused)
    {
      skimEnabled := checked;
      if checked && duration != 0.0 {
        StartSkimming();
      }
    }

    /** The playback speed select (its value already read as a number). */
    method SetPlaybackSpeed(speed: real)
      modifies this`playbackSpeed, this`playbackRate
      ensures playbackSpeed == speed && playbackRate == speed
    {
      playbackSpeed := speed;
      playbackRate := speed;
    }
  }
}
