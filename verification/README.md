# GoTriton Player: time label and playback controls

GoTriton Player is a small JavaFX media player. Almost all of its one class,
`App`, builds windows and menus around the JavaFX media player. This project
models the part with logic of its own:

- **`formatTime`**: the elapsed/total label beside the seek slider
  (`MM:SS`, `H:MM:SS`, `MM:SS/MM:SS`, `H:MM:SS/H:MM:SS`). Its arithmetic
  and its branches are modelled as written, with ASCII digits. Times are whole milliseconds, and an unknown media
  length is `None`. The label is proved to read back as the numbers it was
  made from.
- **The play/pause decision**: a total mapping from the player status to no
  command, `play()` or `pause()`.
- **The window state the handlers update**. This covers the latched
  `duration` field, the button icon, both sliders (position, disabled flag and
  drag flag), the label, the control bar and the current media player. The
  handlers are the player callbacks (paused, playing, ready, end of media),
  the current-time listener, the `updateTime` sync with its drag guards, the
  slider listeners, and the Open button with its length guard.

Modules:

- `Wrappers`: `Option`.
- `Text`: `%d` and `%02d` numerals, their parser, and splitting a string at a
  separator.
- `TimeFormat`: `formatTime`, the label parser, and the corrected field
  arithmetic described under Findings.
- `Playback`: player status, commands and the play/pause decision.
- `Binder`: the window state as a value, every handler as a function on it,
  and lemmas about runs of events. These cover drag suppression, the state
  invariant and pressing play/pause twice.
- `Window`: class `App`, whose methods update fields in place. Each method's
  postcondition ties the new state to the matching `Binder` function applied
  to the old state, and each method keeps `Valid()`.

The media player itself is foreign code. It appears only as a value holding a
status, the current time, a volume in percent, the auto-play flag and a log of
the commands the window issued (play, pause, stop, seek, set volume). What the
player reports is an input to the model: status changes, time changes, end of
media, the media length at ready, and whether the `Media` and `MediaPlayer`
constructors accept the entered text. The console print, the clock and the
threads are not modelled.

Some of the behaviour is not what a reader of the labels would guess. The
model follows the code:

- One might expect each side of the label to pick its own hour field.
  In the code, the total's hour count alone picks the form of both sides
  (`App.java:321-329`). With a total of at least one hour, the elapsed side
  shows `0:` hours. With a total under one hour, the elapsed side drops its
  hours.
- One would expect labels such as `1:01:01/2:00:00`. The code
  prints `1:01:-3599/2:00:-7200`, because the hours are subtracted twice.
  See Findings.
- The status enumeration has eight values. `pause()` is
  issued for PLAYING, STALLED and DISPOSED.
- The volume slider's sync is also suppressed while the user drags it
  (`App.java:293`).

## Model

| member | source | states |
|---|---|---|
| `Text.NatToString` | src/main/java/org/gotriton/player/App.java:322-334 | the digits of a `%d` conversion are one or more decimal digits, a single digit exactly below 10, with no leading zero except for 0 itself |
| `Text.IntToString` | src/main/java/org/gotriton/player/App.java:322-332 | `%d` writes a minus sign exactly for negative values and otherwise only numeral characters |
| `Text.Pad2` | src/main/java/org/gotriton/player/App.java:322-334 | `%02d` is at least two characters; 0..9 get a leading zero and no other value starts with '0'; values from 10 and negative values print as `%d`, negatives unpadded |
| `Text.IntToStringRoundTrip` | src/main/java/org/gotriton/player/App.java:322-332 | every `%d` numeral parses back to its integer |
| `Text.Pad2RoundTrip` | src/main/java/org/gotriton/player/App.java:322-334 | every `%02d` numeral parses back to its integer, negatives included |
| `TimeFormat.WholeSeconds` | src/main/java/org/gotriton/player/App.java:302 | the `(int) Math.floor` of the seconds: floor of ms/1000, never rounded up, saturating at Integer.MAX_VALUE |
| `TimeFormat.SplitAsWritten` | src/main/java/org/gotriton/player/App.java:302-309 | as computed step by step, hours = s/3600, minutes = (s%3600)/60 within 0..59, seconds = s%60 - 3600*(s/3600) |
| `TimeFormat.SecondsBelowOneHour` | src/main/java/org/gotriton/player/App.java:303-309 | below one hour the hours are 0, the seconds field is s%60 in 0..59, and the fields add up to s |
| `TimeFormat.SecondsFromOneHour` | src/main/java/org/gotriton/player/App.java:305-309 | from one hour on the seconds field is at most -3541 and prints with its sign, unpadded |
| `TimeFormat.SplitStaysInInt` | src/main/java/org/gotriton/player/App.java:302-320 | no intermediate value of the field arithmetic leaves Java's int range |
| `TimeFormat.ElapsedOnly` | src/main/java/org/gotriton/player/App.java:330-335 | without a positive total only the elapsed side is shown: `MM:SS` below one hour, otherwise `H:MM:SS` with the as-written fields |
| `TimeFormat.TotalPicksForm` | src/main/java/org/gotriton/player/App.java:311-329 | with a positive total both sides are shown and the total's hours alone pick their form; elapsed hours are dropped below one hour of total and shown even when 0 from one hour on |
| `TimeFormat.SubSecondTotal` | src/main/java/org/gotriton/player/App.java:311-312 | a total between 0 and 1 s is positive and its side reads `00:00`; the label ends in `/00:00` |
| `TimeFormat.LabelRoundTrip` | src/main/java/org/gotriton/player/App.java:322-334 | every label shape, joined with ':' and '/', parses back to the same fields |
| `TimeFormat.Arrange` | src/main/java/org/gotriton/player/App.java:311-336 | both sides are shown exactly when there is a total; then the total's hours alone give both sides an hour field, otherwise the elapsed hours decide; every side prints its clock's minutes and seconds, and its hours when it has an hour field |
| `TimeFormat.Layout` | src/main/java/org/gotriton/player/App.java:301-336 | the label has two sides exactly when the total is above zero; with two sides both carry hours exactly when the total reaches one hour, with one side it carries hours exactly when the elapsed time does; each side prints the as-written fields of its floored seconds |
| `TimeFormat.HalfNumerals` | src/main/java/org/gotriton/player/App.java:322-334 | one side of the label is its `%d`/`%02d` numerals joined by ':' and contains no '/' |
| `TimeFormat.HalfRoundTrip` | src/main/java/org/gotriton/player/App.java:322-334 | every side of the label parses back to the fields it was printed from |
| `TimeFormat.LabelHalves` | src/main/java/org/gotriton/player/App.java:322-325 | a label splits at '/' into its one or two sides as printed |
| `TimeFormat.FormatTime` | src/main/java/org/gotriton/player/App.java:301-337 | the label formatTime returns parses back to exactly the fields it computed |
| `TimeFormat.ShortLabelExamples` | src/main/java/org/gotriton/player/App.java:301-337 | `00:00` for zero, `00:05` for 5 s without total, `01:05/02:10` for 65 s of 130 s |
| `TimeFormat.HourLabelExample` | src/main/java/org/gotriton/player/App.java:303-332 | elapsed 3661 s without total is shown as `1:01:-3599` |
| `TimeFormat.HourPairExample` | src/main/java/org/gotriton/player/App.java:301-337 | 3661 s of 7200 s is shown as `1:01:-3599/2:00:-7200` |
| `TimeFormat.MixedPairExample` | src/main/java/org/gotriton/player/App.java:311-324 | 30 s of 3700 s is shown as `0:00:30/1:01:-3560`: the elapsed side shows 0 hours |
| `TimeFormat.AsWrittenLosesTheHours` | src/main/java/org/gotriton/player/App.java:305-309 | the as-written fields add up to s minus its full hours, and equal the intended ones exactly below one hour |
| `TimeFormat.SplitIntended` | src/main/java/org/gotriton/player/App.java:303-309 | the corrected fields add up to s, minutes and seconds in 0..59 |
| `TimeFormat.IntendedLabelShowsTheTime` | src/main/java/org/gotriton/player/App.java:301-337 | with the corrected fields every side of the label has minutes and seconds in 0..59 and stands for its floored seconds (less whole hours only on a `MM:SS` elapsed side) |
| `TimeFormat.IntendedAgreesBelowOneHour` | src/main/java/org/gotriton/player/App.java:301-337 | below one hour on every side shown, the corrected label equals the as-written one |
| `TimeFormat.IntendedHourPairExample` | src/main/java/org/gotriton/player/App.java:321-324 | corrected, 3661 s of 7200 s reads `1:01:01/2:00:00` |
| `Playback.NewPlayer` | src/main/java/org/gotriton/player/App.java:190-192 | a new player starts in UNKNOWN with auto-play on, volume 20 % and no commands issued |
| `Playback.PlayPauseCommand` | src/main/java/org/gotriton/player/App.java:79-90 | no command exactly for UNKNOWN and HALTED; play exactly for PAUSED, READY, STOPPED; pause exactly for PLAYING, STALLED, DISPOSED |
| `Playback.PlayPauseNeverStops` | src/main/java/org/gotriton/player/App.java:84-90 | the button only ever issues play or pause |
| `Binder.Initial` | src/main/java/org/gotriton/player/App.java:68-125 | the window starts valid with controls disabled, no media, volume slider at 20, play icon and label `00:00/00:00` |
| `Binder.TotalOf` | src/main/java/org/gotriton/player/App.java:283 | formatTime receives the latched length itself, none when it is unknown; so the total is positive exactly when the length is known and above zero |
| `Binder.SliderPercent` | src/main/java/org/gotriton/player/App.java:290 | the seek position is the elapsed fraction in whole percent, rounded down, 100 once the time reaches the length |
| `Binder.SyncKeepsValid` | src/main/java/org/gotriton/player/App.java:282-295 | the sync keeps the window invariant |
| `Binder.Sync` | src/main/java/org/gotriton/player/App.java:282-295 | with the duration still null nothing changes; otherwise the label is rewritten, the seek slider is disabled exactly when the length is unknown, its position moves only when enabled with a length above 0 and not dragged, the volume slider moves only when not dragged; no command is issued and nothing else changes |
| `Binder.SyncIdempotent` | src/main/java/org/gotriton/player/App.java:282-295 | a second sync right after the first changes nothing |
| `Binder.PressPlayPause` | src/main/java/org/gotriton/player/App.java:78-91 | a press on the enabled button appends exactly the command the status selects to the player's log and changes nothing else |
| `Binder.PlayPauseIgnoredWhileUnknownOrHalted` | src/main/java/org/gotriton/player/App.java:80-82 | with status UNKNOWN or HALTED a press changes nothing |
| `Binder.MoveTimeSlider` | src/main/java/org/gotriton/player/App.java:104-112 | moving the enabled seek slider sets its position; a seek to that position is issued exactly when the value changed while dragging and a player with a latched duration exists (before ready the listener throws on the null `duration` at line 109 and seeks nothing) |
| `Binder.PressTimeSlider` | src/main/java/org/gotriton/player/App.java:107 | a press on the enabled seek slider starts a drag; nothing else changes |
| `Binder.ReleaseTimeSlider` | src/main/java/org/gotriton/player/App.java:107 | a release ends the seek drag and changes nothing else |
| `Binder.PressVolumeSlider` | src/main/java/org/gotriton/player/App.java:129 | a press on the volume slider of the enabled control bar starts a drag; nothing else changes |
| `Binder.ReleaseVolumeSlider` | src/main/java/org/gotriton/player/App.java:129 | a release ends the volume drag and changes nothing else |
| `Binder.MoveVolumeSlider` | src/main/java/org/gotriton/player/App.java:126-133 | moving the volume slider sets its position; the player's volume follows exactly when the value changed while dragging |
| `Binder.OpenMedia` | src/main/java/org/gotriton/player/App.java:179-242 | text of ten characters or fewer changes nothing; accepted text installs a fresh player and enables the controls; the latched duration and the label are kept |
| `Binder.OnReady` | src/main/java/org/gotriton/player/App.java:213-219 | ready latches the media length and syncs: label for that length, seek slider disabled exactly when it is unknown, moved to the current percentage when the length is above zero and the slider is not held, volume slider moved to the player's volume unless held; nothing else changes |
| `Binder.OnPaused` | src/main/java/org/gotriton/player/App.java:201-206 | paused shows the play icon and changes nothing else |
| `Binder.OnPlaying` | src/main/java/org/gotriton/player/App.java:207-212 | playing shows the pause icon and changes nothing else |
| `Binder.OnEndOfMedia` | src/main/java/org/gotriton/player/App.java:220-227 | end of media appends stop to the player's log and shows the play icon; the player's status and everything else are left as they were |
| `Binder.StatusChanged` | src/main/java/org/gotriton/player/App.java:201-219 | only the player's status changes in the player and no command is issued; PAUSED shows the play icon and PLAYING the pause icon with nothing else changed; READY latches the length and runs the sync with it (label, seek slider disabled exactly when the length is unknown, seek and volume positions unless held) and changes nothing else; any other status changes nothing else |
| `Binder.TimeChanged` | src/main/java/org/gotriton/player/App.java:194-199 | the player's time moves and, once a duration is latched, the sync runs for the new time: label, seek slider disabled exactly when the length is unknown, seek position unless held or the length is not above zero, volume position unless held; nothing else changes, and with no duration only the time moves |
| `Binder.Step` | src/main/java/org/gotriton/player/App.java:68-299 | player notifications never touch the drags, the media, the control bar or a held seek slider; user gestures never rewrite the label or the latched length; only READY latches a length |
| `Binder.StepKeepsValid` | src/main/java/org/gotriton/player/App.java:68-299 | every handler keeps the window invariant: slider positions and volume within 0..100, controls enabled exactly when a player exists, nothing latched or dragged before that |
| `Binder.RunKeepsValid` | src/main/java/org/gotriton/player/App.java:68-299 | any sequence of events keeps the invariant |
| `Binder.Reachable` | src/main/java/org/gotriton/player/App.java:68-299 | every state reached from the initial window is valid |
| `Binder.DragSuppression` | src/main/java/org/gotriton/player/App.java:285-287 | while the seek slider is held, any number of player notifications leave its position and the drag unchanged |
| `Binder.SnapAfterRelease` | src/main/java/org/gotriton/player/App.java:283-291 | after release, the next time notification puts the slider at the current time's position |
| `Binder.PlayPauseTwiceFromPaused` | src/main/java/org/gotriton/player/App.java:78-212 | from PAUSED, press, playing, press, paused issues play then pause and ends PAUSED with the play icon |
| `Window.App.constructor` | src/main/java/org/gotriton/player/App.java:68-125 | the window as built: valid and equal to the initial state |
| `Window.App.UpdateTime` | src/main/java/org/gotriton/player/App.java:278-299 | updates the fields as the sync does, keeps the player and duration, and keeps a held slider where it is |
| `Window.App.PlayPausePressed` | src/main/java/org/gotriton/player/App.java:78-91 | appends the command the status selects to the player's log |
| `Window.App.TimeSliderPressed` | src/main/java/org/gotriton/player/App.java:107 | the drag starts only on the enabled seek slider |
| `Window.App.TimeSliderMoved` | src/main/java/org/gotriton/player/App.java:104-112 | the seek slider's listener, as in Binder.MoveTimeSlider |
| `Window.App.TimeSliderReleased` | src/main/java/org/gotriton/player/App.java:107 | ends the seek drag |
| `Window.App.VolumeSliderPressed` | src/main/java/org/gotriton/player/App.java:129 | the volume drag starts on the enabled control bar |
| `Window.App.VolumeSliderMoved` | src/main/java/org/gotriton/player/App.java:126-133 | the volume slider's listener, as in Binder.MoveVolumeSlider |
| `Window.App.VolumeSliderReleased` | src/main/java/org/gotriton/player/App.java:129 | ends the volume drag |
| `Window.App.Open` | src/main/java/org/gotriton/player/App.java:179-242 | opens media as Binder.OpenMedia says; the prompt closes exactly when the text is longer than ten characters and both constructors accept it |
| `Window.App.OnPaused` | src/main/java/org/gotriton/player/App.java:201-206 | shows the play icon and changes nothing else |
| `Window.App.OnPlaying` | src/main/java/org/gotriton/player/App.java:207-212 | shows the pause icon and changes nothing else |
| `Window.App.OnReady` | src/main/java/org/gotriton/player/App.java:213-219 | latches the length, then syncs the label for it |
| `Window.App.OnEndOfMedia` | src/main/java/org/gotriton/player/App.java:220-227 | issues stop, then shows the play icon |
| `Window.App.PlayerStatusChanged` | src/main/java/org/gotriton/player/App.java:201-219 | the player takes the new status and the handler for it runs |
| `Window.App.CurrentTimeChanged` | src/main/java/org/gotriton/player/App.java:194-199 | the player's time moves, then the sync runs |

## Left out

- Scene, menu, prompt window, file chooser, stylesheet and icon construction (`App.java:56-276` outside the handlers above): these only build the UI.
- Decoding and rendering by `Media`, `MediaPlayer` and `MediaView`: this is foreign code. The player is a status, a time, a volume and a command log; what it reports comes in as events.
- `Platform.runLater` (`App.java:280`) and the null check on the widgets (`App.java:279`): the sync runs at once, and the widgets always exist.
- The full-screen stub (`App.java:96-98`), the console print (`App.java:225`) and Exit (`App.java:258`): they have no behaviour to specify.
- Floating point: the seek target `duration.multiply(value / 100.0)` and `setVolume(value / 100.0)` are left out, and the commands carry the slider percentage. The volume is kept as a whole percentage, so `Math.round` is not modelled.
- `Duration.INDEFINITE`, fractional milliseconds and negative times: times are whole non-negative milliseconds, and a length is known or unknown.
- `%d` and `%02d` under a locale whose zero digit is not '0': `String.format` uses the default locale's digits; the model prints ASCII digits.
- Binder.Sync: before ready `duration` is null and the sync throws a NullPointerException inside formatTime (`App.java:311`) before touching any widget. The model represents the null as `None` and lets the sync change nothing.
- Binder.SliderPercent: the program sets the seek slider to the unrounded double `current / length * 100`. The model rounds it down to a whole percent.
- Binder.MoveTimeSlider: JavaFX calls the value listeners on every change of value. The model does the same and does not model JavaFX's invalidation bookkeeping.
- Binder.OpenMedia: a second Open leaves the previous player running. Its callbacks still act on the `mediaPlayer` field. The model keeps only the newest player.
- Binder.OpenMedia: the length check counts characters. Java's `String.length` counts UTF-16 code units, so the two differ for characters outside the Basic Multilingual Plane.
- Auto-play (`App.java:191`): starting playback is the player's own doing. It is recorded as a flag, not as a play command.

## Findings

| source | as written | input that shows it | evidently intended | confidence | as-written member | corrected member |
|---|---|---|---|---|---|---|
| src/main/java/org/gotriton/player/App.java:305-309 | the hours are taken off the seconds a second time (lines 315-320 do the same for the total), so from one hour on the seconds field is negative | elapsed 3661000 ms, no total: `1:01:-3599` | `1:01:01`, seconds = s % 60 | high; not executed | `TimeFormat.HourLabelExample` | `TimeFormat.SplitIntended` |

The corrected fields are proved to add up to the floored seconds with minutes
and seconds in 0..59 (`TimeFormat.IntendedLabelShowsTheTime`). Below one hour
they give the same label as the code (`TimeFormat.IntendedAgreesBelowOneHour`).
The window model (`Binder.Sync`, `Window.App.UpdateTime`) uses the as-written
`TimeFormat.FormatTime`, because it describes the label the program actually
shows. `TimeFormat.FormatTimeIntended` is the corrected formatter.
