/** The window state that the player's callbacks, the `updateTime` sync and
    the user's gestures change, and each change as a function from the state
    before to the state after. The class in module Window performs the same
    changes on fields; the lemmas here are about sequences of them. */
module Binder {
  import opened Wrappers
  import opened TimeFormat
  import opened Playback

  /** What `Media.getDuration()` reports: unknown, or a length in ms. */
  datatype Length = UnknownLength | Millis(ms: nat)

  /** The graphic on the play/pause button. */
  datatype Icon = PlayIcon | PauseIcon

  /** How far opening media gets: the `Media` constructor may reject the
      text, the `MediaPlayer` constructor may reject the media. */
  datatype LoadOutcome = MediaRejected | PlayerRejected | Loaded

  datatype UiState = UiState(
    duration: Option<Length>,  // the `duration` field; None while it is still null
    icon: Icon,
    timeValue: int,            // seek slider position, percent
    timeDisabled: bool,
    timeDragging: bool,        // the seek slider's isValueChanging
    volumeValue: int,          // volume slider position, percent
    volumeDragging: bool,      // the volume slider's isValueChanging
    timeLabel: string,
    controlsDisabled: bool,    // the whole control bar
    media: Option<string>,     // the `media` field, by its source text
    player: Option<Player>)    // the `mediaPlayer` field

  const InitialLabel: string := "00:00/00:00"

  /** The window right after `start`: controls disabled, no media, the
      volume slider at 20, the play icon shown. */
  function Initial(): (s: UiState)
    ensures Valid(s)
    ensures s.player.None? && s.media.None? && s.duration.None? && s.controlsDisabled
    ensures s.volumeValue == 20 && s.icon == PlayIcon && s.timeLabel == InitialLabel
  {
    UiState(None, PlayIcon, 0, false, false, 20, false, InitialLabel, true, None, None)
  }

  /** What the window can rely on in every reachable state. */
  predicate Valid(s: UiState) {
    && 0 <= s.timeValue <= 100
    && 0 <= s.volumeValue <= 100
    && (s.player.Some? ==> 0 <= s.player.value.volume <= 100)
    && (s.controlsDisabled <==> s.player.None?)
    && (s.player.None? ==>
          s.duration.None? && !s.timeDragging && !s.volumeDragging && s.timeLabel == InitialLabel)
  }

  /** A JavaFX Slider keeps its value within its range, 0..100 here. */
  function Clamp(v: int): (r: int)
    ensures 0 <= r <= 100
    ensures 0 <= v <= 100 ==> r == v
    ensures v < 0 ==> r == 0
    ensures 100 < v ==> r == 100
  {
    if v < 0 then 0 else if 100 < v then 100 else v
  }

  /** The total formatTime receives: the latched length itself, none when it
      is unknown. */
  function TotalOf(d: Length): (t: Option<nat>)
    ensures d.Millis? ==> t == Some(d.ms)
    ensures d.UnknownLength? ==> t == None
    ensures Positive(t) <==> d.Millis? && d.ms > 0
  {
    if d.Millis? then Some(d.ms) else None
  }

  /** The seek slider position for the current time: the elapsed fraction of
      the length in whole percent, rounded down and kept within the slider. */
  function SliderPercent(currentMs: nat, lengthMs: nat): (p: int)
    requires 0 < lengthMs
    ensures 0 <= p <= 100
    ensures lengthMs <= currentMs ==> p == 100
    ensures currentMs < lengthMs ==> p * lengthMs <= currentMs * 100 < (p + 1) * lengthMs
  {
    var q := currentMs * 100 / lengthMs;
    FloorPercent(currentMs, lengthMs);
    Clamp(q)
  }

  lemma FloorPercent(currentMs: nat, lengthMs: nat)
    requires 0 < lengthMs
    ensures var q := currentMs * 100 / lengthMs;
      && q * lengthMs <= currentMs * 100 < (q + 1) * lengthMs
      && (currentMs < lengthMs <==> q < 100)
  {
  }

  /** The sync runs only with a player and a latched duration; with the
      duration still null the program throws before touching any widget. */
  predicate CanSync(s: UiState) {
    s.player.Some? && s.duration.Some?
  }

  /** The `updateTime` runnable. */
  function Sync(s: UiState): (r: UiState)
    ensures !CanSync(s) ==> r == s
    // it changes the label and the sliders, and issues no command
    ensures r == s.(timeLabel := r.timeLabel, timeDisabled := r.timeDisabled,
                    timeValue := r.timeValue, volumeValue := r.volumeValue)
    ensures CanSync(s) ==>
      && r.timeLabel == FormatTime(s.player.value.currentMs, TotalOf(s.duration.value))
      && (r.timeDisabled <==> s.duration.value.UnknownLength?)
    ensures r.timeValue != s.timeValue ==>
      CanSync(s) && s.duration.value.Millis? && s.duration.value.ms > 0 && !s.timeDragging
    ensures CanSync(s) && s.duration.value.Millis? && s.duration.value.ms > 0 && !s.timeDragging ==>
      r.timeValue == SliderPercent(s.player.value.currentMs, s.duration.value.ms)
    ensures r.volumeValue == if CanSync(s) && !s.volumeDragging then Clamp(s.player.value.volume)
                             else s.volumeValue
  {
    if !CanSync(s) then s
    else
      var p, d := s.player.value, s.duration.value;
      var timeDisabled := d.UnknownLength?;
      s.(timeLabel := FormatTime(p.currentMs, TotalOf(d)),
         timeDisabled := timeDisabled,
         timeValue := if !timeDisabled && d.ms > 0 && !s.timeDragging
                      then SliderPercent(p.currentMs, d.ms) else s.timeValue,
         volumeValue := if !s.volumeDragging then Clamp(p.volume) else s.volumeValue)
  }

  /** The fields a sync writes, one by one. */
  lemma SyncFields(s: UiState)
    requires CanSync(s)
    ensures var p, d := s.player.value, s.duration.value;
      && Sync(s).timeLabel == FormatTime(p.currentMs, TotalOf(d))
      && Sync(s).timeDisabled == d.UnknownLength?
      && Sync(s).timeValue == (if d.Millis? && d.ms > 0 && !s.timeDragging
                               then SliderPercent(p.currentMs, d.ms) else s.timeValue)
      && Sync(s).volumeValue == (if !s.volumeDragging then Clamp(p.volume) else s.volumeValue)
      && Sync(s) == s.(timeLabel := Sync(s).timeLabel, timeDisabled := Sync(s).timeDisabled,
                       timeValue := Sync(s).timeValue, volumeValue := Sync(s).volumeValue)
  {
  }

  /** The sync keeps the window invariant. */
  lemma SyncKeepsValid(s: UiState)
    requires Valid(s)
    ensures Valid(Sync(s))
  {
  }

  /** A second sync right after the first changes nothing. */
  lemma SyncIdempotent(s: UiState)
    ensures Sync(Sync(s)) == Sync(s)
  {
  }

  /** The commands a play/pause decision adds to the log. */
  function Issued(c: Option<Command>): (cs: seq<Command>)
    ensures |cs| <= 1
    ensures c.Some? ==> cs == [c.value]
  {
    if c.Some? then [c.value] else []
  }

  /** The play/pause button's action; the disabled control bar delivers none. */
  function PressPlayPause(s: UiState): (r: UiState)
    ensures s.controlsDisabled || s.player.None? ==> r == s
    ensures r == s.(player := r.player) && r.player.Some? == s.player.Some?
    ensures !s.controlsDisabled && s.player.Some? ==>
      var p := s.player.value;
      r.player.value == p.(commands := p.commands + Issued(PlayPauseCommand(p.status)))
  {
    if s.controlsDisabled || s.player.None? then s
    else
      var p := s.player.value;
      match PlayPauseCommand(p.status)
      case None => s
      case Some(c) => s.(player := Some(p.(commands := p.commands + [c])))
  }

  predicate TimeSliderUsable(s: UiState) {
    !s.controlsDisabled && !s.timeDisabled
  }

  /** The mouse goes down on the seek slider; a disabled slider ignores it. */
  function PressTimeSlider(s: UiState): (r: UiState)
    ensures r == s.(timeDragging := r.timeDragging)
    ensures r.timeDragging <==> s.timeDragging || TimeSliderUsable(s)
  {
    if TimeSliderUsable(s) then s.(timeDragging := true) else s
  }

  function ReleaseTimeSlider(s: UiState): (r: UiState)
    ensures r == s.(timeDragging := r.timeDragging) && !r.timeDragging
  {
    s.(timeDragging := false)
  }

  /** The user moves the seek slider to v. Its value listener seeks only
      while the slider is being dragged; a move that leaves the value as it
      was fires no listener. */
  function MoveTimeSlider(s: UiState, v: int): (r: UiState)
    ensures !TimeSliderUsable(s) ==> r == s
    ensures TimeSliderUsable(s) ==> r.timeValue == Clamp(v)
    ensures r == s.(timeValue := r.timeValue, player := r.player)
    ensures TimeSliderUsable(s) && Clamp(v) != s.timeValue && s.timeDragging && CanSync(s) ==>
      r.player == Some(s.player.value.(commands := s.player.value.commands + [Seek(Clamp(v))]))
    ensures !(TimeSliderUsable(s) && Clamp(v) != s.timeValue && s.timeDragging && CanSync(s)) ==>
      r.player == s.player
  {
    var nv := Clamp(v);
    if !TimeSliderUsable(s) || nv == s.timeValue then s
    else if s.timeDragging && CanSync(s) then
      var p := s.player.value;
      s.(timeValue := nv, player := Some(p.(commands := p.commands + [Seek(nv)])))
    else s.(timeValue := nv)
  }

  /** The mouse goes down on the volume slider; the disabled bar ignores it. */
  function PressVolumeSlider(s: UiState): (r: UiState)
    ensures r == s.(volumeDragging := r.volumeDragging)
    ensures r.volumeDragging <==> s.volumeDragging || !s.controlsDisabled
  {
    if s.controlsDisabled then s else s.(volumeDragging := true)
  }

  function ReleaseVolumeSlider(s: UiState): (r: UiState)
    ensures r == s.(volumeDragging := r.volumeDragging) && !r.volumeDragging
  {
    s.(volumeDragging := false)
  }

  /** The user moves the volume slider to v; while dragging, the player's
      volume follows. */
  function MoveVolumeSlider(s: UiState, v: int): (r: UiState)
    ensures s.controlsDisabled ==> r == s
    ensures !s.controlsDisabled ==> r.volumeValue == Clamp(v)
    ensures r == s.(volumeValue := r.volumeValue, player := r.player)
    ensures !s.controlsDisabled && Clamp(v) != s.volumeValue && s.volumeDragging && s.player.Some? ==>
      var p := s.player.value;
      r.player == Some(p.(volume := Clamp(v), commands := p.commands + [SetVolume(Clamp(v))]))
    ensures !(!s.controlsDisabled && Clamp(v) != s.volumeValue && s.volumeDragging && s.player.Some?) ==>
      r.player == s.player
  {
    var nv := Clamp(v);
    if s.controlsDisabled || nv == s.volumeValue then s
    else if s.volumeDragging && s.player.Some? then
      var p := s.player.value;
      s.(volumeValue := nv, player := Some(p.(volume := nv, commands := p.commands + [SetVolume(nv)])))
    else s.(volumeValue := nv)
  }

  /** Whether the Open button closes the prompt: the text is longer than ten
      characters and both constructors accept it. */
  predicate Opens(text: string, outcome: LoadOutcome) {
    |text| > 10 && outcome == Loaded
  }

  /** The Open button's action. The latched duration is kept: until the new
      player is ready, the sync reads the previous media's length. */
  function OpenMedia(s: UiState, text: string, outcome: LoadOutcome): (r: UiState)
    ensures |text| <= 10 || outcome == MediaRejected ==> r == s
    ensures |text| > 10 && outcome == PlayerRejected ==> r == s.(media := Some(text))
    ensures Opens(text, outcome) ==>
      r == s.(media := Some(text), player := Some(NewPlayer()), controlsDisabled := false)
    ensures r.duration == s.duration && r.timeLabel == s.timeLabel
  {
    if |text| <= 10 then s
    else match outcome
      case MediaRejected => s
      case PlayerRejected => s.(media := Some(text))
      case Loaded => s.(media := Some(text), player := Some(NewPlayer()), controlsDisabled := false)
  }

  /** Paused offers play: the button shows the play icon, nothing else changes. */
  function OnPaused(s: UiState): (r: UiState)
    ensures r == s.(icon := r.icon) && r.icon == PlayIcon
  {
    s.(icon := PlayIcon)
  }

  /** Playing offers pause: the button shows the pause icon, nothing else changes. */
  function OnPlaying(s: UiState): (r: UiState)
    ensures r == s.(icon := r.icon) && r.icon == PauseIcon
  {
    s.(icon := PauseIcon)
  }

  /** Ready latches the media's length and syncs at once. */
  function OnReady(s: UiState, length: Length): (r: UiState)
    // the length is latched; only the label and the sliders change besides
    ensures r == s.(duration := Some(length), timeLabel := r.timeLabel, timeDisabled := r.timeDisabled,
                    timeValue := r.timeValue, volumeValue := r.volumeValue)
    ensures s.player.None? ==> r == s.(duration := Some(length))
    ensures s.player.Some? ==>
      r.timeLabel == FormatTime(s.player.value.currentMs, TotalOf(length))
      && (r.timeDisabled <==> length.UnknownLength?)
    ensures s.player.Some? && length.Millis? && length.ms > 0 && !s.timeDragging ==>
      r.timeValue == SliderPercent(s.player.value.currentMs, length.ms)
    ensures !(s.player.Some? && length.Millis? && length.ms > 0 && !s.timeDragging) ==>
      r.timeValue == s.timeValue
    ensures r.volumeValue == if s.player.Some? && !s.volumeDragging then Clamp(s.player.value.volume)
                             else s.volumeValue
  {
    Sync(s.(duration := Some(length)))
  }

  /** End of media stops the player, then shows the play icon. */
  function OnEndOfMedia(s: UiState): (r: UiState)
    ensures s.player.None? ==> r == s
    ensures s.player.Some? ==>
      && r == s.(player := r.player, icon := r.icon) && r.icon == PlayIcon
      && r.player.Some? && r.player.value == s.player.value.(commands := r.player.value.commands)
      && r.player.value.commands == s.player.value.commands + [Stop]
  {
    if s.player.None? then s
    else
      var p := s.player.value;
      s.(player := Some(p.(commands := p.commands + [Stop])), icon := PlayIcon)
  }

  /** The player enters status st and runs the handler registered for it;
      mediaLength is what the media reports as its duration at that moment. */
  function StatusChanged(s: UiState, st: Status, mediaLength: Length): (r: UiState)
    ensures s.player.None? ==> r == s
    ensures s.player.Some? ==>
      r.player.Some? && r.player.value.status == st
      && r.player.value.commands == s.player.value.commands
    // only the status changes in the player
    ensures s.player.Some? ==> r.player == Some(s.player.value.(status := st))
    ensures s.player.Some? && st == Paused ==> r == s.(player := r.player, icon := PlayIcon)
    ensures s.player.Some? && st == Playing ==> r == s.(player := r.player, icon := PauseIcon)
    ensures s.player.Some? && st == Ready ==>
      r.duration == Some(mediaLength) && r.icon == s.icon
      && r.timeLabel == FormatTime(s.player.value.currentMs, TotalOf(mediaLength))
    // on READY the sync runs with the new length; only the label and the sliders change besides
    ensures s.player.Some? && st == Ready ==>
      && r == s.(player := r.player, duration := Some(mediaLength), timeLabel := r.timeLabel,
                 timeDisabled := r.timeDisabled, timeValue := r.timeValue, volumeValue := r.volumeValue)
      && (r.timeDisabled <==> mediaLength.UnknownLength?)
      && r.timeValue == (if mediaLength.Millis? && mediaLength.ms > 0 && !s.timeDragging
                         then SliderPercent(s.player.value.currentMs, mediaLength.ms) else s.timeValue)
      && r.volumeValue == (if !s.volumeDragging then Clamp(s.player.value.volume) else s.volumeValue)
    ensures s.player.Some? && !(st.Paused? || st.Playing? || st.Ready?) ==> r == s.(player := r.player)
  {
    if s.player.None? then s
    else
      var s1 := s.(player := Some(s.player.value.(status := st)));
      match st
      case Paused => OnPaused(s1)
      case Playing => OnPlaying(s1)
      case Ready => OnReady(s1, mediaLength)
      case _ => s1
  }

  /** The player's current time moves to ms, and its listener syncs. */
  function TimeChanged(s: UiState, ms: nat): (r: UiState)
    ensures s.player.None? ==> r == s
    ensures s.player.Some? ==>
      r.player == Some(s.player.value.(currentMs := ms))
      && (s.duration.Some? ==> r.timeLabel == FormatTime(ms, TotalOf(s.duration.value)))
    // besides the player's time only the label and the sliders change
    ensures r == s.(player := r.player, timeLabel := r.timeLabel, timeDisabled := r.timeDisabled,
                    timeValue := r.timeValue, volumeValue := r.volumeValue)
    // with the duration still null the sync changes nothing
    ensures s.duration.None? ==> r == s.(player := r.player)
    ensures s.player.Some? && s.duration.Some? ==>
      var d := s.duration.value;
      && (r.timeDisabled <==> d.UnknownLength?)
      && r.timeValue == (if d.Millis? && d.ms > 0 && !s.timeDragging then SliderPercent(ms, d.ms)
                         else s.timeValue)
      && r.volumeValue == (if !s.volumeDragging then Clamp(s.player.value.volume) else s.volumeValue)
  {
    if s.player.None? then s
    else Sync(s.(player := Some(s.player.value.(currentMs := ms))))
  }

  // ---- Runs of events -------------------------------------------------------

  datatype Event =
    | PlayPausePressed
    | TimeSliderPressed | TimeSliderMoved(timePercent: int) | TimeSliderReleased
    | VolumeSliderPressed | VolumeSliderMoved(volumePercent: int) | VolumeSliderReleased
    | OpenPressed(text: string, outcome: LoadOutcome)
    | PlayerStatus(status: Status, mediaLength: Length)
    | PlayerTime(ms: nat)
    | PlayerEndOfMedia
  {
    /** Notifications that come from the player rather than the user. */
    predicate FromPlayer() {
      PlayerStatus? || PlayerTime? || PlayerEndOfMedia?
    }
  }

  /** One event and its handler. What the player reports never touches the
      drags, the media or the control bar, nor a held seek slider; the user's
      gestures never rewrite the label; only READY changes the latched length. */
  function Step(s: UiState, e: Event): (r: UiState)
    ensures e.FromPlayer() ==>
      && r.timeDragging == s.timeDragging && r.volumeDragging == s.volumeDragging
      && r.media == s.media && r.controlsDisabled == s.controlsDisabled
    ensures e.FromPlayer() && s.timeDragging ==> r.timeValue == s.timeValue
    ensures !e.FromPlayer() ==> r.timeLabel == s.timeLabel && r.duration == s.duration
    ensures r.duration != s.duration ==> e.PlayerStatus? && e.status == Ready && r.duration == Some(e.mediaLength)
  {
    match e
    case PlayPausePressed => PressPlayPause(s)
    case TimeSliderPressed => PressTimeSlider(s)
    case TimeSliderMoved(v) => MoveTimeSlider(s, v)
    case TimeSliderReleased => ReleaseTimeSlider(s)
    case VolumeSliderPressed => PressVolumeSlider(s)
    case VolumeSliderMoved(v) => MoveVolumeSlider(s, v)
    case VolumeSliderReleased => ReleaseVolumeSlider(s)
    case OpenPressed(text, outcome) => OpenMedia(s, text, outcome)
    case PlayerStatus(st, length) => StatusChanged(s, st, length)
    case PlayerTime(ms) => TimeChanged(s, ms)
    case PlayerEndOfMedia => OnEndOfMedia(s)
  }

  function Run(s: UiState, es: seq<Event>): UiState
    decreases |es|
  {
    if es == [] then s else Run(Step(s, es[0]), es[1..])
  }

  lemma StepKeepsValid(s: UiState, e: Event)
    requires Valid(s)
    ensures Valid(Step(s, e))
  {
  }

  /** Every state reached from a valid one is valid. */
  lemma {:induction false} RunKeepsValid(s: UiState, es: seq<Event>)
    requires Valid(s)
    ensures Valid(Run(s, es))
    decreases |es|
  {
    if es != [] {
      StepKeepsValid(s, es[0]);
      RunKeepsValid(Step(s, es[0]), es[1..]);
    }
  }

  /** Every state the window reaches is valid. */
  lemma Reachable(es: seq<Event>)
    ensures Valid(Run(Initial(), es))
  {
    RunKeepsValid(Initial(), es);
  }

  /** Drag suppression: while the user holds the seek slider, no number of
      player notifications moves it or ends the drag. */
  lemma {:induction false} DragSuppression(s: UiState, es: seq<Event>)
    requires s.timeDragging
    requires forall i :: 0 <= i < |es| ==> es[i].FromPlayer()
    ensures Run(s, es).timeValue == s.timeValue && Run(s, es).timeDragging
    decreases |es|
  {
    if es != [] {
      var s1 := Step(s, es[0]);
      assert s1.timeValue == s.timeValue && s1.timeDragging by {
        assert es[0].FromPlayer();
      }
      DragSuppression(s1, es[1..]);
    }
  }

  /** Once the drag ends, the next time notification puts the slider at the
      position of the current time. */
  lemma SnapAfterRelease(s: UiState, ms: nat)
    requires s.player.Some? && s.duration.Some? && s.duration.value.Millis?
    requires s.duration.value.ms > 0
    ensures TimeChanged(ReleaseTimeSlider(s), ms).timeValue == SliderPercent(ms, s.duration.value.ms)
  {
  }

  /** Pressing play/pause twice from Paused, with the player reporting each
      change, plays then pauses and ends paused with the play icon. */
  lemma PlayPauseTwiceFromPaused(s: UiState, length: Length)
    requires !s.controlsDisabled && s.player.Some? && s.player.value.status == Paused
    ensures var r := StatusChanged(PressPlayPause(StatusChanged(PressPlayPause(s), Playing, length)),
                                   Paused, length);
      && r.player.Some?
      && r.player.value.commands == s.player.value.commands + [Play, Pause]
      && r.player.value.status == Paused
      && r.icon == PlayIcon
  {
    var s1 := PressPlayPause(s);
    assert s1.player.value.commands == s.player.value.commands + [Play];
    var s2 := StatusChanged(s1, Playing, length);
    assert s2.player.value.status == Playing && !s2.controlsDisabled;
    var s3 := PressPlayPause(s2);
    assert s3.player.value.commands == s.player.value.commands + [Play, Pause];
  }

  /** With the status UNKNOWN or HALTED the button issues nothing. */
  lemma PlayPauseIgnoredWhileUnknownOrHalted(s: UiState)
    requires s.player.Some? && s.player.value.status in {Unknown, Halted}
    ensures PressPlayPause(s) == s
  {
  }
}
