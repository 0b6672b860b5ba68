/** The `MeditationTimer` object: its fields are updated in place by the
    one-second callback and by the buttons and the duration slider. Each
    method is proved to move the object's state exactly as the matching
    function of module TimerSpec moves a session. */
module Timer {
  import opened Color
  import opened TimerSpec

  class MeditationTimer {
    /** `meditation_time`: the session length in seconds. */
    var meditationTime: int
    /** `current_time`: the seconds left. */
    var currentTime: int
    var running: bool
    /** The count the countdown label was last set to show: `timer_label`
        displays `FormatTime(shownTime)`. */
    var shownTime: int
    /** The music channel of the audio library, which this object drives. */
    var mixer: Mixer

    function State(): Session
      reads this
    {
      Session(meditationTime, currentTime, running, shownTime, mixer)
    }

    ghost predicate Valid()
      reads this
    {
      WellFormed(State())
    }

    /** The timer as the window opens: twenty minutes on the clock, idle. */
    constructor ()
      ensures Valid() && State() == Initial()
    {
      meditationTime := DefaultMinutes * 60;
      currentTime := DefaultMinutes * 60;
      running := false;
      shownTime := DefaultMinutes * 60;
      mixer := Silent;
    }

    /** `update_timer`. Drawing the ring is left to the toolkit; what matters
        here is whether Tk accepts the arc colour, since a refused colour
        raises before the completion check. `refused` reports that error to
        the caller. */
    method UpdateTimer() returns (refused: bool)
      requires Valid()
      modifies this
      ensures Valid() && State() == Tick(old(State()))
      ensures refused == (old(running) && ArcRefused(currentTime, meditationTime))
    {
      refused := false;
      if running {
        currentTime := currentTime - 1;
        shownTime := currentTime;
        var colour := ColorTransition(currentTime, meditationTime);
        if !TkAccepts(colour) {
          return true;
        }
        if currentTime <= 0 {
          StopTimer();
        }
      }
    }

    /** `start_timer` with the track chosen in the sound selector. */
    method StartTimer(sound: Sound)
      requires Valid()
      modifies this
      ensures Valid() && State() == Start(old(State()), sound)
    {
      if !running {
        running := true;
        var refused := UpdateTimer();
        if refused {
          return;
        }
        mixer := Looping(sound);
      }
    }

    /** `stop_timer`. */
    method StopTimer()
      requires Valid()
      modifies this
      ensures Valid() && State() == Stop(old(State()))
    {
      running := false;
      mixer := Silent;
    }

    /** `reset_timer`. */
    method ResetTimer()
      requires Valid()
      modifies this
      ensures Valid() && State() == Reset(old(State()))
    {
      StopTimer();
      currentTime := meditationTime;
      shownTime := currentTime;
    }

    /** `update_meditation_time`, with the slider's position in minutes. */
    method UpdateMeditationTime(minutes: real)
      requires Valid() && 1.0 <= minutes <= 60.0
      modifies this
      ensures Valid() && State() == ChangeDuration(old(State()), minutes)
    {
      ghost var before := State();
      meditationTime := minutes.Floor * 60;
      if !running {
        currentTime := meditationTime;
        shownTime := currentTime;
      }
      assert State() == ChangeDuration(before, minutes);
    }
  }
}
