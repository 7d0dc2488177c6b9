/** The player window: the fields the program's handlers update in place.
    Each method does what one handler does, and its postcondition ties the
    new state to the corresponding function of module Binder applied to the
    old state; Binder's lemmas then speak for runs of these methods. */
module Window {
  import opened Wrappers
  import opened TimeFormat
  import opened Playback
  import Binder

  class App {
    var duration: Option<Binder.Length>
    var icon: Binder.Icon
    var timeValue: int
    var timeDisabled: bool
    var timeDragging: bool
    var volumeValue: int
    var volumeDragging: bool
    var timeLabel: string
    var controlsDisabled: bool
    var media: Option<string>
    var player: Option<Player>

    function Snapshot(): Binder.UiState
      reads this
    {
      Binder.UiState(duration, icon, timeValue, timeDisabled, timeDragging,
                     volumeValue, volumeDragging, timeLabel, controlsDisabled, media, player)
    }

    predicate Valid()
      reads this
    {
      Binder.Valid(Snapshot())
    }

    /** The window as `start` builds it. */
    constructor ()
      ensures Valid() && Snapshot() == Binder.Initial()
    {
      duration := None;
      icon := Binder.PlayIcon;
      timeValue := 0;
      timeDisabled := false;
      timeDragging := false;
      volumeValue := 20;
      volumeDragging := false;
      timeLabel := Binder.InitialLabel;
      controlsDisabled := true;
      media := None;
      player := None;
    }

    /** `updateTime`: rewrite the label, enable or disable the seek slider,
        and move each slider that the user is not holding. */
    method UpdateTime()
      requires Valid()
      modifies this
      ensures Valid() && Snapshot() == Binder.Sync(old(Snapshot()))
      ensures player == old(player) && duration == old(duration)
      ensures timeDragging ==> timeValue == old(timeValue)
      ensures volumeDragging ==> volumeValue == old(volumeValue)
    {
      if player.None? || duration.None? {
        return;
      }
      ghost var before := Snapshot();
      Binder.SyncFields(before);
      Binder.SyncKeepsValid(before);
      var currentTime := player.value.currentMs;
      timeLabel := FormatTime(currentTime, Binder.TotalOf(duration.value));
      timeDisabled := duration.value.UnknownLength?;
      if !timeDisabled && duration.value.ms > 0 && !timeDragging {
        timeValue := Binder.SliderPercent(currentTime, duration.value.ms);
      }
      if !volumeDragging {
        volumeValue := Binder.Clamp(player.value.volume);
      }
      assert Snapshot() == before.(timeLabel := timeLabel, timeDisabled := timeDisabled,
                                   timeValue := timeValue, volumeValue := volumeValue);
    }

    /** The play/pause button's action. */
    method PlayPausePressed()
      requires Valid()
      modifies this
      ensures Valid() && Snapshot() == Binder.PressPlayPause(old(Snapshot()))
      ensures !old(controlsDisabled) ==>
        player.value.commands
        == old(player).value.commands + Binder.Issued(PlayPauseCommand(old(player).value.status))
    {
      if controlsDisabled || player.None? {
        return;
      }
      var status := player.value.status;
      if status == Unknown || status == Halted {
        return;
      }
      if status == Paused || status == Ready || status == Stopped {
        player := Some(player.value.(commands := player.value.commands + [Play]));
      } else {
        player := Some(player.value.(commands := player.value.commands + [Pause]));
      }
    }

    method TimeSliderPressed()
      requires Valid()
      modifies this
      ensures Valid() && Snapshot() == Binder.PressTimeSlider(old(Snapshot()))
      ensures timeDragging == (old(timeDragging) || (!controlsDisabled && !timeDisabled))
    {
      if !controlsDisabled && !timeDisabled {
        timeDragging := true;
      }
    }

    /** The seek slider's value listener: seek while the user drags. */
    method TimeSliderMoved(v: int)
      requires Valid()
      modifies this
      ensures Valid() && Snapshot() == Binder.MoveTimeSlider(old(Snapshot()), v)
    {
      var nv := Binder.Clamp(v);
      if controlsDisabled || timeDisabled || nv == timeValue {
        return;
      }
      timeValue := nv;
      if timeDragging && player.Some? && duration.Some? {
        player := Some(player.value.(commands := player.value.commands + [Seek(nv)]));
      }
    }

    method TimeSliderReleased()
      requires Valid()
      modifies this
      ensures Valid() && Snapshot() == Binder.ReleaseTimeSlider(old(Snapshot()))
    {
      timeDragging := false;
    }

    method VolumeSliderPressed()
      requires Valid()
      modifies this
      ensures Valid() && Snapshot() == Binder.PressVolumeSlider(old(Snapshot()))
    {
      if !controlsDisabled {
        volumeDragging := true;
      }
    }

    /** The volume slider's value listener: set the volume while dragging. */
    method VolumeSliderMoved(v: int)
      requires Valid()
      modifies this
      ensures Valid() && Snapshot() == Binder.MoveVolumeSlider(old(Snapshot()), v)
    {
      var nv := Binder.Clamp(v);
      if controlsDisabled || nv == volumeValue {
        return;
      }
      volumeValue := nv;
      if volumeDragging && player.Some? {
        player := Some(player.value.(volume := nv, commands := player.value.commands + [SetVolume(nv)]));
      }
    }

    method VolumeSliderReleased()
      requires Valid()
      modifies this
      ensures Valid() && Snapshot() == Binder.ReleaseVolumeSlider(old(Snapshot()))
    {
      volumeDragging := false;
    }

    /** The Open button's action; `closed` tells whether the prompt closes. */
    method Open(text: string, outcome: Binder.LoadOutcome) returns (closed: bool)
      requires Valid()
      modifies this
      ensures Valid() && Snapshot() == Binder.OpenMedia(old(Snapshot()), text, outcome)
      ensures closed == Binder.Opens(text, outcome)
    {
      closed := false;
      if |text| <= 10 || outcome == Binder.MediaRejected {
        return;
      }
      media := Some(text);
      if outcome == Binder.PlayerRejected {
        return;
      }
      player := Some(NewPlayer());
      closed := true;
      controlsDisabled := false;
    }

    method OnPaused()
      requires Valid()
      modifies this
      ensures Valid() && Snapshot() == Binder.OnPaused(old(Snapshot()))
      ensures icon == Binder.PlayIcon && Snapshot() == old(Snapshot()).(icon := Binder.PlayIcon)
    {
      icon := Binder.PlayIcon;
    }

    method OnPlaying()
      requires Valid()
      modifies this
      ensures Valid() && Snapshot() == Binder.OnPlaying(old(Snapshot()))
      ensures icon == Binder.PauseIcon && Snapshot() == old(Snapshot()).(icon := Binder.PauseIcon)
    {
      icon := Binder.PauseIcon;
    }

    /** Latch the media's length, then sync. The handler is registered on
        the player, so it runs only once there is one. */
    method OnReady(length: Binder.Length)
      requires Valid() && player.Some?
      modifies this
      ensures Valid() && Snapshot() == Binder.OnReady(old(Snapshot()), length)
      ensures duration == Some(length) && player == old(player)
      ensures timeLabel == FormatTime(player.value.currentMs, Binder.TotalOf(length))
    {
      duration := Some(length);
      UpdateTime();
    }

    method OnEndOfMedia()
      requires Valid()
      modifies this
      ensures Valid() && Snapshot() == Binder.OnEndOfMedia(old(Snapshot()))
      ensures old(player).Some? ==>
        player == Some(old(player).value.(commands := old(player).value.commands + [Stop]))
        && icon == Binder.PlayIcon
    {
      if player.None? {
        return;
      }
      player := Some(player.value.(commands := player.value.commands + [Stop]));
      icon := Binder.PlayIcon;
    }

    /** The player enters a new status and runs the handler set for it. */
    method PlayerStatusChanged(st: Status, mediaLength: Binder.Length)
      requires Valid()
      modifies this
      ensures Valid() && Snapshot() == Binder.StatusChanged(old(Snapshot()), st, mediaLength)
    {
      if player.None? {
        return;
      }
      player := Some(player.value.(status := st));
      match st {
        case Paused => OnPaused();
        case Playing => OnPlaying();
        case Ready => OnReady(mediaLength);
        case _ =>
      }
    }

    /** The current-time listener: the player's time moves, then sync. */
    method CurrentTimeChanged(ms: nat)
      requires Valid()
      modifies this
      ensures Valid() && Snapshot() == Binder.TimeChanged(old(Snapshot()), ms)
    {
      if player.None? {
        return;
      }
      player := Some(player.value.(currentMs := ms));
      UpdateTime();
    }
  }
}
