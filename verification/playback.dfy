/** The media player as the window sees it: a status, the current time, the
    volume and the log of commands the window has issued to it. Decoding and
    rendering stay inside the player and are not modelled. */
module Playback {
  import opened Wrappers

  /** `MediaPlayer.Status`. */
  datatype Status = Unknown | Ready | Paused | Playing | Stopped | Stalled | Halted | Disposed

  /** Commands the window issues. Seek and SetVolume carry the slider
      position in percent that the program scales by the media length or by
      one hundredth. */
  datatype Command = Play | Pause | Stop | Seek(percent: int) | SetVolume(percent: int)

  /** A loaded player. `volume` is the player volume in percent. */
  datatype Player = Player(
    status: Status,
    currentMs: nat,
    volume: int,
    autoPlay: bool,
    commands: seq<Command>)

  /** A freshly constructed player: auto-play on, volume 0.2. */
  function NewPlayer(): (p: Player)
    ensures p.status == Unknown && p.commands == [] && p.volume == 20 && p.autoPlay
  {
    Player(Unknown, 0, 20, true, [])
  }

  /** The play/pause button's action: which command, if any, a press issues
      in each status. */
  function PlayPauseCommand(status: Status): (c: Option<Command>)
    ensures c == None <==> status in {Unknown, Halted}
    ensures c == Some(Play) <==> status in {Paused, Ready, Stopped}
    ensures c == Some(Pause) <==> status in {Playing, Stalled, Disposed}
  {
    if status == Unknown || status == Halted then None
    else if status == Paused || status == Ready || status == Stopped then Some(Play)
    else
      assert status.Playing? || status.Stalled? || status.Disposed?;
      Some(Pause)
  }

  /** The button only ever plays or pauses; stopping is left to end of media. */
  lemma PlayPauseNeverStops(status: Status)
    ensures PlayPauseCommand(status) != Some(Stop)
    ensures PlayPauseCommand(status).Some? ==> PlayPauseCommand(status).value in {Play, Pause}
  {
  }
}
