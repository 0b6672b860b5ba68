# Meditation timer — a verified model of the countdown

The application is a small Tk window with these parts:

- a countdown label showing "MM:SS";
- a ring whose arc fades from white to green as the session runs out;
- a sound selector, a volume slider and a duration slider (1 to 60 minutes);
- Start, Stop and Reset buttons.

The logic behind the window is the `MeditationTimer` object. It keeps three fields: the session length (`meditation_time`), the seconds left (`current_time`) and whether it is `running`. A one-second callback ticks the count down. The buttons and the duration slider change the fields in place. Two pure helpers turn the count into the label text and the arc colour.

This project models that object in Dafny. It has five modules:

- `Arith`: facts about integer division that the other proofs use.
- `Clock`: `format_time`, which is `strftime('%M:%S', gmtime(seconds))`. The label's round trip is proved: reading the label back gives the count modulo one hour.
- `Color`: `calculate_color_transition`.
  - Each channel is computed exactly over the integers, with the truncation toward zero of Python's `int()`, and proved equal to the source formula read over the reals.
  - The blend is formatted with `'02x'`, which keeps a minus sign for negative numbers.
  - `TkAccepts` states which colour strings Tk on X11 accepts ('#' and 3, 6, 9 or 12 hex digits, as X11's colour parser reads them). A refused colour makes `create_arc` raise.
- `TimerSpec`: the timer's state as a value (`Session`), with one function per transition and the lemmas about them.
  - The transitions are tick, start, stop, reset and a duration change.
  - The lemmas cover completion after exactly N ticks, stop-then-start resuming, labels at the edges, and the three findings below.
  - A corrected Start and a corrected duration slider keep the intended invariant over any run of events, and under it Tk never refuses the arc colour.
- `Timer`: the class `MeditationTimer`.
  - Its fields are updated in place by methods named after the source's.
  - Each method is proved to move the object's state exactly as the matching `TimerSpec` function moves a `Session`.

The audio library is abstracted to the state of its music channel: silent, or looping one track. The label widget is abstracted to the count it was last set to show. Its text is `FormatTime` of that count.

## Model

| member | source | states |
|---|---|---|
| Timer.MeditationTimer.constructor | main.py:35-38 | the timer opens with a twenty-minute session on the clock, idle and silent |
| Timer.MeditationTimer.UpdateTimer | main.py:86-102 | a tick moves the object exactly as `Tick`. It reports whether Tk refused the arc colour, which happens only while running and only for the new count |
| Timer.MeditationTimer.StartTimer | main.py:123-127 | start moves the object exactly as `Start`. Running: no change. Idle: set running, tick once, then start the selected track unless the tick raised |
| Timer.MeditationTimer.StopTimer | main.py:129-131 | stop clears `running` and silences the music; the counts are untouched |
| Timer.MeditationTimer.ResetTimer | main.py:133-136 | reset stops, then puts the full duration back on the clock and the label |
| Timer.MeditationTimer.UpdateMeditationTime | main.py:140-144 | the slider sets the duration to whole minutes × 60. The count follows it only while idle |
| TimerSpec.Tick | main.py:86-102 | one firing of the callback; its contract is carried by TickSteps, IdleTicks, CountingDown, LastSecond and CountdownCompletes |
| TimerSpec.Apply | main.py:86-144 | one event (a second, a button, a slider move) applied to the state; its contract is carried by ApplyKeepsWellFormed and Run |
| TimerSpec.ApplyKeepsWellFormed | main.py:86-144 | every single transition keeps the state well formed: duration a whole number of minutes in 1..60, label showing the count |
| TimerSpec.Initial | main.py:35-38 | the initial state is well formed, idle, silent, with remaining == total == 1200 |
| TimerSpec.Stop | main.py:129-131 | after stop: not running and silent; every other field as before |
| TimerSpec.StopIdempotent | main.py:129-131 | stopping twice equals stopping once |
| TimerSpec.TickSteps | main.py:86-102 | an idle tick is a no-op. A running tick takes exactly one second off, keeps the total and shows the new count. The session goes on exactly while time is left or the arc colour was refused. A completing tick silences the music |
| TimerSpec.Start | main.py:123-127 | running: no change. Idle: one second off at once, shown on the label. The session keeps running iff more than one second was left or the colour was refused. The track loops unless the colour was refused |
| TimerSpec.Reset | main.py:133-136 | after reset: not running, silent, remaining and label equal the total |
| TimerSpec.ChangeDuration | main.py:140-144 | the new total is ⌊minutes⌋ × 60, within 60..3600 and whole minutes. Running and music are unchanged. While running, remaining is kept; while idle, it is the new total |
| TimerSpec.Ticks | main.py:86-90 | repeated ticks never change the total |
| TimerSpec.Run | main.py:86-144 | every sequence of events from a well-formed state ends well formed (duration a whole number of minutes in 1..60, label showing the count) |
| TimerSpec.IdleTicks | main.py:87 | any number of ticks on an idle session changes nothing, so after completion every tick is a no-op |
| TimerSpec.CountingDown | main.py:86-90 | k ticks with more than k seconds left count down by exactly k, keeping the session running with its music |
| TimerSpec.TickWithTimeLeft | main.py:86-101 | a running tick with at least two seconds left only counts down |
| TimerSpec.LastSecond | main.py:86-102 | the tick from one second to zero stops the session and silences it, because the green arc colour is accepted |
| TimerSpec.CountdownCompletes | main.py:86-102 | a running session with N seconds left, ticked N or more times, is at zero, stopped and silent, with the label "00:00" |
| TimerSpec.ToLastSecond | main.py:86-90 | the first N − 1 ticks bring N seconds left to the last second |
| TimerSpec.FinalTicks | main.py:86-102 | from the last second, one tick completes the session and later ticks change nothing |
| TimerSpec.TicksSplit | main.py:86-90 | a + b ticks are a ticks followed by b ticks |
| TimerSpec.StopThenStartResumes | main.py:123-131 | for every running session with at least two seconds left, stop followed by start resumes from the remaining count, one second lower and running; there is no implicit reset. The newly chosen track loops exactly when Tk accepts the arc colour, which it does whenever the count is within the total |
| TimerSpec.ShrunkSessionRestartsSilent | main.py:123-131 | a session slid down to one minute with 600 seconds left, stopped and started again, runs on at 599 with no music |
| TimerSpec.SixtyMinuteLabel | main.py:140-144 | a sixty-minute duration shows the label "00:00" |
| TimerSpec.ShrinkWhileRunning | main.py:140-143 | while running, sliding down leaves more seconds than the new total (600 left of 60), turning a healthy state into one that is not |
| TimerSpec.StartOnFinishedLoopsMusic | main.py:123-127 | with at most one second left and an accepted colour, Start ends stopped, one second lower, with the track looping |
| TimerSpec.StartIntoOverrunNeverStops | main.py:86-102 | when the colour below zero is refused, Start leads to a session that keeps running for every number of later ticks, counting below zero, with the music as it was (silent after a normal completion) |
| TimerSpec.DefaultSessionOverrun | main.py:123-127 | for the twenty-minute session stopped at any count from 0 down to −3, Start stops it again one second lower with the ocean track looping. From −4, Start leads to a session that runs below zero for every number of ticks, with the track still looping |
| TimerSpec.Overrun | main.py:86-101 | below zero with a refused colour, every tick counts down and the session stays running |
| TimerSpec.TickOverrun | main.py:86-101 | one such tick only counts down |
| TimerSpec.DefaultSessionRestarted | main.py:123-127 | the finished default session after Start: stopped at −1, label "59:59", ocean looping |
| TimerSpec.StartChecked | main.py:123-127 | corrected start: no effect when running or when no time is left; otherwise one second off at once |
| TimerSpec.ChangeDurationChecked | main.py:140-144 | corrected slider: the same total as written; the count never exceeds it; it agrees with the code as written whenever the count already fits, and caps a running count at the new total otherwise |
| TimerSpec.ApplyCheckedKeepsHealthy | main.py:86-144 | every corrected transition keeps the count between zero and the total, keeps time left while running, and keeps the music playing exactly while running |
| TimerSpec.HealthyArcAccepted | main.py:104-115 | in every state satisfying that invariant, Tk accepts the arc colour, the blend lies between green and white (red = blue in 0..255, green 255), and a running session's next tick draws an accepted colour too |
| TimerSpec.RunCheckedStaysHealthy | main.py:86-144 | the same holds for every sequence of events |
| TimerSpec.StartBreaksHealth | main.py:123-127 | the as-written start breaks that invariant from the finished default session |
| Clock.FormatTimeShape | main.py:83-84 | every label is "MM:SS": five characters, a colon in the middle, both fields two digits below 60 |
| Clock.FormatTimeRoundTrip | main.py:83-84 | reading the label back as minutes and seconds gives the count modulo 3600 |
| Clock.FormatTimeWithinHour | main.py:83-84 | for 0 ≤ s < 3600 the label is two-digit s/60, a colon, two-digit s%60; within an hour different counts give different labels |
| Clock.FormatTimeDropsHours | main.py:83-84 | a count and that count plus an hour give the same label |
| Clock.ZeroLabel | main.py:83-84 | zero reads "00:00" |
| Clock.EdgeLabels | main.py:83-84 | 3600 reads "00:00", −1 reads "59:59", 1199 reads "19:59" |
| Clock.FormatTime | main.py:83-84 | the label text; its contract is carried by FormatTimeShape, FormatTimeRoundTrip, FormatTimeWithinHour, FormatTimeDropsHours and EdgeLabels |
| Clock.TwoDigits | main.py:84 | a number below 100 is written as two digits that read back as the number |
| Color.Channel | main.py:109-113 | one channel of the blend, computed exactly; ChannelMatchesFormula ties it to the source formula over the reals |
| Color.Blend | main.py:106-113 | the three channels; BlendInRange, BlendFades and BlendBelowZero carry its contract |
| Color.HexColor | main.py:115 | the f-string '#' + three '02x' fields; ColorTransitionRoundTrip decodes it back in range |
| Color.ColorTransition | main.py:104-115 | the arc colour; ColorTransitionRoundTrip, ColorTransitionEnds, ColorBelowZero and ColorAboveTotal carry its contract |
| Color.TkAccepts | main.py:98 | the '#' colour strings Tk on X11 accepts for `outline` (3, 6, 9 or 12 hex digits of either case); ColorTransitionRoundTrip, ColorBelowZero and ColorAboveTotal say which arc colours pass |
| Color.TruncDiv | main.py:111-113 | the quotient truncated toward zero: within one divisor of the dividend, on the side of zero |
| Color.TruncOfQuotient | main.py:111-113 | `int()` of a real quotient equals the truncated integer quotient |
| Color.ChannelMatchesFormula | main.py:104-113 | the integer channel equals `int(white + (green − white) × (1 − current/total))` computed over the reals |
| Color.BlendInRange | main.py:104-113 | for 0 ≤ current ≤ total: red equals blue, lies in 0..255, green is 255; white at the total, green at zero |
| Color.BlendFades | main.py:104-113 | with fewer seconds left, red and blue never increase |
| Color.BlendBelowZero | main.py:104-113 | below zero the blend stays green while 255 × overrun < total, and red turns negative after |
| Color.Hex | main.py:115 | `format(n, 'x')` writes only hex digits, one of them exactly when n < 16 |
| Color.HexOfByte | main.py:115 | 16..255 give two hex digits, high first |
| Color.Hex02 | main.py:115 | `'02x'` writes at least two characters. It starts with '-' exactly for negative numbers. For 0..255 it gives two hex digits that read back as the number |
| Color.ColorTransitionRoundTrip | main.py:104-115 | for 0 ≤ current ≤ total the colour is a 7-character string that Tk accepts and that decodes back to the blend |
| Color.ColorTransitionEnds | main.py:104-115 | the colour is "#ffffff" at the full total and "#00ff00" at zero |
| Color.ColorBelowZero | main.py:104-115 | below zero, Tk accepts the colour iff 255 × overrun < total, and then it is "#00ff00" |
| Color.HexOfWord | main.py:115 | 256..65535 give three or four hex digits |
| Color.ColorAboveTotal | main.py:104-115 | once 255 × count reaches 256 × total, the colour has eight or ten hex digits and Tk refuses it |
| Color.OneMinuteOverrun | main.py:104-115 | a one-minute session one second past its end gives the malformed colour "#-4ff-4" |
| Arith.DivModUnique | main.py:84 | the quotient and remainder of floor division are determined by a = q·b + r with 0 ≤ r < b, as gmtime splits a count |

## Left out

- Window and widget construction, layout and theming (main.py:29-81, 150-161): these are toolkit plumbing. The sound selector enters only as the `Sound` passed to Start, and the label only as the count it shows (`shown`, `shownTime`), whose text is `FormatTime`.
- Canvas drawing:
  - The ring, the arc's extent and the completion check mark (main.py:93-98, 117-121, 138) are not modelled.
  - The one effect of drawing that is modelled is whether Tk accepts the arc colour. If it does not, `create_arc` raises, and the rest of `update_timer` (and of `start_timer`) is skipped.
  - The Tk error itself is modelled only as that skip; the toolkit's error report is left out.
- Audio playback (main.py:7, 19-25, 147):
  - The music channel is abstracted to silent or looping one of the five tracks.
  - Loading the files and the volume slider's `set_volume` are left out.
  - A track whose file is missing is not modelled: loading it would raise in `start_timer` after the tick.
- The one-second rescheduling by `after(1000, …)` (main.py:90) is event-loop timing. It is modelled as the caller calling `UpdateTimer`/`Tick`: `Run` allows the `Second` events anywhere in the sequence, at any rate. The callback is rescheduled before the arc is drawn, so a tick whose colour is refused still schedules the next one.
- The rate of ticks is not modelled. `stop_timer` and `reset_timer` (main.py:129-135) never cancel a callback already scheduled. Stop or Reset followed by Start within one second therefore leaves two callback chains, and the count then falls two seconds per second (more after repeated toggling). Each tick still behaves as `Tick` states.
- The tick's ordering is modelled as one step: the label, the rescheduling and the drawing happen before the completion check. No state the model keeps is read in between.
- Colour parsing is modelled as Tk on X11 does it (`TkAccepts`, following X11's `XParseColor`). Tk builds that parse '#' colours themselves may be more lenient. Older ones read each field with `sscanf` and `%x`, which allows a sign. There, some colours that X11 refuses, such as one with a minus sign, may be drawn instead of raising, and findings 2 and 3 need not apply.
- `gmtime` on a negative count is modelled as the C library on Linux computes it (floor division by 60 and by 3600, so −1 reads "59:59"). Platforms whose `gmtime` refuses negative counts are not modelled.
- Color.Channel: the channel is computed exactly with the truncation of `int()`, not with IEEE-754 doubles. Where 255·current/total is a whole number, the double computation of `1 − current/total` can land just below it. Then `int()` yields one less than the exact result (current 400 of total 1200 is such a case). Floating-point rounding is not modelled.
- Timer.MeditationTimer.UpdateMeditationTime and TimerSpec.ChangeDuration: the slider is assumed to report a value in its range 1..60, as `ttk.Scale` does. The string-to-float parse of its argument is not modelled.
- One would expect the count to stay between zero and the total and the music to play only while the session runs (`Healthy`). The code does not keep this. A running session keeps its count when the duration slider moves down (ShrinkWhileRunning), and Start on a finished session goes below zero (findings 1 and 2). The model follows the code and proves the invariant only for the corrected Start and slider (RunCheckedStaysHealthy).

## Findings

| source | as written | input that shows it | evidently intended | confidence | as-written member | corrected member |
|---|---|---|---|---|---|---|
| main.py:123-127 | `start_timer` on a finished session ticks it to −1, which completes it again, and only then starts the track | twenty-minute session run to "00:00", then Start: the label reads "59:59", the timer is stopped, and the ocean track loops until Stop or Reset | Start on a session with no time left does nothing (or the music stops with the session); the music plays only while running | not executed | TimerSpec.DefaultSessionRestarted | TimerSpec.RunCheckedStaysHealthy |
| main.py:97-101, 104-115 | once the count of a stopped session is far enough below zero that 255 × overrun reaches the total, the colour has negative channels, e.g. "#-4ff-4". Tk on X11 refuses it, `create_arc` raises before the completion check, and the session never stops. Sessions of up to four minutes get there with one press of Start after completion; every duration gets there after ⌈total/255⌉ presses (five for twenty minutes) | twenty-minute session run to "00:00", then Start five times: the first four each stop again one second lower with the ocean track looping; after the fifth, every later tick counts further below zero, the timer stays running, and the track keeps looping. A one-minute session gets there with one press, with no music | a finished session stays finished, so the count never goes below zero and no channel of the colour goes negative | not executed | TimerSpec.DefaultSessionOverrun | TimerSpec.StartChecked |
| main.py:140-143, 97-98 | while running, the duration slider keeps a count above the new total. Once 255 × count reaches 256 × total, red and blue have three or four hex digits, Tk on X11 refuses the colour, and every tick raises before drawing the arc. Stop then Start then raises before `play_sound` | twenty-minute session started, at 600 seconds slid to one minute: the count stays 600 of 60 and the colour of 599 is "#9f1ff9f1"; Stop, then Start: the session runs on at 599 with no music | the count never exceeds the total, so the colour stays between "#00ff00" and "#ffffff" and Tk accepts it in every state | not executed | TimerSpec.ShrunkSessionRestartsSilent | TimerSpec.HealthyArcAccepted |
