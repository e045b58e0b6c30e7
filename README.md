# Guitar tutor core logic in Dafny

This project models the three pieces of logic inside the guitar tutor's React components, and proves properties of them.

- **Metronome: the lookahead beat scheduler and its transport** (`metronome.dfy`, module `Metronome`).
  - A schedule cursor holds the time of the next beat not yet booked.
  - A scheduling pass books every beat before `now + 0.1` seconds, advancing the cursor by `60 / bpm` per beat. It then re-arms its timeout.
  - Start moves a cursor that lies in the past to `now + 0.05` and runs a pass at once.
  - Stop cancels the pending timeout and leaves the cursor where it is.
  - The tempo buttons step the tempo by 5 within [40, 240].
  - The component is the class `Transport`. It holds `bpm`, `bpmRef`, `isPlaying`, the audio-context flag `hasAudio`, `cursor` and the pending-timeout flag `wakeupPending`. A ghost field `emitted` records the time of every click booked.
  - The audio clock is the `now` argument of each operation, and every firing of the timeout is a call to `Wake(now)`.
  - The class invariant `Valid` holds after every operation. It says two things:
    - the tempo is in range;
    - the clicks booked over the component's whole life, across stops and starts, are at least a quarter second apart and lie before the cursor.
  - `Armed` says that a timeout is pending exactly while playing. `TogglePlay` establishes it and `Wake` keeps it.
  - What one pass books is specified by the recursive functions `PassClicks` and `PassEnd`. `Scheduler`'s loop is proved against them, and the lemmas about them give the properties of a pass.
- **Pitch-class arithmetic** (`notes.dfy`, module `Notes`; `fretboard.dfy`, module `Fretboard`).
  - The `NoteName` type and the constant tables: chromatic names, open strings, fret markers and scale intervals.
  - `getScaleNotes` maps an interval list onto note names modulo 12.
  - The fretboard's `for` loop builds the 16 positions of each string. It is the method `BuildStringRow`, proved equal to the function `StringRow`.
  - Two decisions are modelled: whether and how a marker is drawn, and which inlay a fret shows.
- **The practice session timer** (`practice_planner.dfy`, module `PracticePlanner`).
  - The countdown is the class `Planner`. Its operations are routine loading, the interval tick, the end-of-session effect, toggle, reset and the generate request.
  - `formatTime` produces the `m:ss` display. It is modelled with JavaScript's `Math.floor`, `%`, `toString` and `padStart`, and proved, for a non-negative count, to read back to its input.
  - The progress-bar percentage is modelled with JavaScript's division by zero.
- `wrappers.dfy` holds the `Option` type.

Two client methods exercise each class from a fresh object.
- `Metronome.FirstBeatsAt120` proves that at 120 bpm a start and two timeouts book beats at `now + 0.05`, `now + 0.55` and `now + 1.05`.
- `PracticePlanner.OneMinuteSession` runs a one-minute routine to the end. It proves that the alarm sounds exactly once.

### Two behaviours of the code worth stating

- **No catch-up after a late wake-up while playing.** The `while` loop at components/Metronome.tsx:50 books every overdue beat in one pass, so a timeout that fires late never skips or fast-forwards beats whose time has passed. `Metronome.NoBeatSkipped` states exactly that.
- **A restart after a pause skips the missed beats.** On start, a cursor that lies in the past moves to `now + 0.05` (components/Metronome.tsx:71-73), so none of the beats missed while stopped is booked. `Metronome.RestartSkipsMissedBeats` and `Metronome.Transport.TogglePlay` state that every click a start books lies at or after `now`.
- **Only the buttons clamp the tempo.** The two buttons clamp to [40, 240]; the slider has no clamp of its own and relies on its `min`/`max` attributes, so `SlideTempo` takes the range as a precondition.

## Model

| member | source | states |
|---|---|---|
| Notes.RootIndex | constants.ts:3 | every note name sits at a position below 12 of the chromatic table |
| Notes.Intervals | constants.ts:9-15 | the scale table; `Notes.ScalesWellFormed` states that every entry starts at 0, rises strictly and stays below 12 |
| Notes.NotesDistinct | constants.ts:3 | the chromatic table has 12 pairwise distinct names |
| Notes.IndexOf | constants.ts:19 | `indexOf` is -1 exactly when the element is absent, and otherwise the position of its first occurrence |
| Notes.IndexOfNote | constants.ts:19 | `NOTES.indexOf(n)` finds every note name, in [0, 12), at its table position |
| Notes.Transpose | constants.ts:20 | the note `k` semitones above `n` lies at distance `k mod 12` from `n` |
| Notes.SemitoneUp | components/Fretboard.tsx:20 | one semitone up moves the table index by one, wrapping from B to C |
| Notes.DistanceDetermines | constants.ts:20 | a note is determined by its distance from a fixed note |
| Notes.TransposeStep | components/Fretboard.tsx:20 | transposing by `k + 1` is one semitone above transposing by `k` |
| Notes.TransposeOctave | constants.ts:20 | intervals `k` and `k + 12` give the same note |
| Notes.GetScaleNotes | constants.ts:18-21 | one note per interval, and note i lies at distance `intervals[i] mod 12` from the root |
| Notes.ScaleNoteFromTable | constants.ts:19-20 | note i is `NOTES[(indexOf(root) + intervals[i]) % 12]` |
| Notes.ScalesWellFormed | constants.ts:9-15 | every scale table entry starts at 0, rises strictly and stays below 12 |
| Notes.ScaleStartsOnRoot | constants.ts:20 | an interval list starting at 0 yields the root first |
| Notes.ScaleNotesDistinct | constants.ts:18-21 | strictly rising intervals within an octave give pairwise distinct notes |
| Notes.ScaleTableNotes | constants.ts:9-21 | for every table scale and root, the root comes first and no note repeats |
| Notes.ScaleOctaveInvariant | constants.ts:20 | raising every interval by 12 leaves the scale's notes unchanged |
| Fretboard.BuildStringRow | components/Fretboard.tsx:17-23 | the `for` loop builds exactly the row `StringRow(open)` |
| Fretboard.StringRow | components/Fretboard.tsx:19-22 | the row of one string as a value; `Fretboard.StringRowShape` and `Fretboard.StringRowFromTable` characterise it |
| Fretboard.StringRowFromTable | components/Fretboard.tsx:17-21 | fret i holds `NOTES[(indexOf(open) + i) % 12]` with fret number i |
| Fretboard.StringRowShape | components/Fretboard.tsx:13-22 | 16 positions with frets 0..15 in order, starting on the open note, each fret one semitone above the previous one, fret 12 equal to fret 0 |
| Fretboard.StringNotes | components/Fretboard.tsx:15-25 | one row per open string, in order, each with 16 positions starting on that string's note |
| Fretboard.IsDrawn | components/Fretboard.tsx:75 | a marker is drawn when the note is highlighted or the fret is 0; `Fretboard.DrawnStyling` relates it to the styling |
| Fretboard.StyleOf | components/Fretboard.tsx:70-85 | the root look before the highlighted look before the dim one; `Fretboard.DrawnStyling` states each case as an iff |
| Fretboard.DrawnStyling | components/Fretboard.tsx:70-85 | root styling iff the note is the root; highlighted iff highlighted and not the root; dim otherwise; a drawn dim marker is an open string; highlighted notes are always drawn |
| Fretboard.InlayAt | components/Fretboard.tsx:35-44 | the inlay of one fret; `Fretboard.InlayClassification` states each case as an iff |
| Fretboard.DisplayedInlays | components/Fretboard.tsx:32-44 | one inlay per drawn fret, 15 in all; `Fretboard.DisplayedInlayPattern` pins them |
| Fretboard.InlayClassification | components/Fretboard.tsx:35-44 | a double inlay iff the fret is 12 or 24; a single dot iff another marker fret; an inlay iff a marker fret |
| Fretboard.DisplayedInlayPattern | components/Fretboard.tsx:32-44 | on frets 1-15: single dots at 3, 5, 7, 9 and 15, the double inlay at 12, nothing elsewhere |
| Metronome.SecondsPerBeat | components/Metronome.tsx:41 | the beat length `s` satisfies `s * bpm == 60` and lies in [0.25, 1.5] |
| Metronome.TempoDown | components/Metronome.tsx:99 | `max(40, b - 5)`: at least 40 and at least `b - 5`, equal to one of them, and it stays in range |
| Metronome.TempoUp | components/Metronome.tsx:117 | `min(240, b + 5)`: at most 240 and at most `b + 5`, equal to one of them, and it stays in range |
| Metronome.PassClicks | components/Metronome.tsx:50-53 | the clicks one pass of the loop books; the `Pass*` lemmas below characterise it |
| Metronome.PassEnd | components/Metronome.tsx:50-53 | the cursor after one pass of the loop; `Metronome.PassBounds`, `Metronome.PassSpacing` and `Metronome.PassEndOnGrid` characterise it |
| Metronome.PassBounds | components/Metronome.tsx:50-53 | after a pass the cursor is at or past the horizon and has not moved back; every click booked lies in [cursor, horizon); a pass books something iff the cursor was short of the horizon |
| Metronome.PassSpacing | components/Metronome.tsx:50-53 | the first click is the entry cursor, consecutive clicks are exactly one beat apart, and the cursor ends one beat after the last click |
| Metronome.PassIncreasing | components/Metronome.tsx:50-53 | the clicks of a pass strictly increase |
| Metronome.PassClickAt | components/Metronome.tsx:50-53 | the k-th click is at `cursor + k * step` |
| Metronome.PassGrid | components/Metronome.tsx:50-53 | every click of a pass lies on the grid `cursor + k * step` |
| Metronome.PassEndOnGrid | components/Metronome.tsx:40-43 | after n clicks the cursor is at `cursor + n * step`: the grid does not drift |
| Metronome.NoBeatSkipped | components/Metronome.tsx:50 | every grid beat before the horizon is booked, however overdue |
| Metronome.OneClickPass | components/Metronome.tsx:50-53 | a horizon within one beat of the cursor books exactly the cursor |
| Metronome.PassesCompose | components/Metronome.tsx:45-55 | at constant tempo, a pass to h1 followed by a pass to h2 books the same clicks and leaves the same cursor as one pass to the later horizon |
| Metronome.StartCursor | components/Metronome.tsx:70-73 | the start cursor is the old cursor iff that is not in the past, and `now + 0.05` otherwise |
| Metronome.RestartSkipsMissedBeats | components/Metronome.tsx:70-76 | every click a start books lies at or after `now`; a stale cursor puts the first click at `now + 0.05` |
| Metronome.Transport.constructor | components/Metronome.tsx:6-13 | tempo 100, stopped, no audio context, cursor 0, nothing booked, and the invariants hold |
| Metronome.Transport.NextNote | components/Metronome.tsx:40-43 | the cursor advances by exactly `60 / bpmRef` at the tempo current at that moment |
| Metronome.Transport.Scheduler | components/Metronome.tsx:45-55 | without audio nothing changes and no timeout is armed; otherwise it books exactly `PassClicks` after the old clicks, the cursor becomes `PassEnd`, at least `now + 0.1`, new clicks lie in [old cursor, now + 0.1), the timeout is armed, and the invariant is kept |
| Metronome.Transport.Wake | components/Metronome.tsx:54 | a cleared timeout books nothing; an armed one runs one pass, which books nothing and disarms without an audio context; the invariant is kept and the cursor never moves back |
| Metronome.Transport.TogglePlay | components/Metronome.tsx:57-78 | stop cancels the timeout and keeps cursor and clicks; start creates the audio context, starts from `StartCursor` and runs one pass, booking nothing before `now`; the invariant is kept and a timeout is pending iff playing |
| Metronome.Transport.DecrementTempo | components/Metronome.tsx:99 | the tempo becomes `TempoDown` of the old tempo, still within [40, 240] |
| Metronome.Transport.IncrementTempo | components/Metronome.tsx:117 | the tempo becomes `TempoUp` of the old tempo, still within [40, 240] |
| Metronome.Transport.SlideTempo | components/Metronome.tsx:124-131 | the slider value in [40, 240] becomes the tempo |
| Metronome.Transport.SyncTempoRef | components/Metronome.tsx:19-21 | the scheduler's tempo reference takes the displayed tempo |
| PracticePlanner.NatToString | components/PracticePlanner.tsx:87 | `toString` of a non-negative integer is all digits without a leading zero (it starts with 0 only for 0), one digit iff below 10, at most two below 100 |
| PracticePlanner.IntToString | components/PracticePlanner.tsx:87 | `toString` of an integer is non-empty, and all digits exactly when the integer is non-negative |
| PracticePlanner.ParseNatToString | components/PracticePlanner.tsx:87 | reading a numeral back gives the number |
| PracticePlanner.PadStart | components/PracticePlanner.tsx:87 | `padStart` reaches the width, keeps the string as suffix, and fills in front |
| PracticePlanner.JsRemainder | components/PracticePlanner.tsx:86 | JavaScript's `%`: the dividend minus the divisor times the truncated quotient, so it takes the sign of the dividend and stays below the divisor in magnitude |
| PracticePlanner.FormatTime | components/PracticePlanner.tsx:84-88 | for a non-negative count the display is digits, a colon, then two digits |
| PracticePlanner.FormatTimeFields | components/PracticePlanner.tsx:84-88 | for a non-negative count the fields are the plain quotient and remainder by 60 |
| PracticePlanner.PaddedSeconds | components/PracticePlanner.tsx:87 | a seconds field below 60 pads to exactly two digits that read back as the field |
| PracticePlanner.FormatTimeRoundTrip | components/PracticePlanner.tsx:84-88 | the display is the minutes, a colon and two digits holding `s mod 60`, and reading it back gives `s` |
| PracticePlanner.JsDivide | components/PracticePlanner.tsx:102 | JavaScript division: finite exactly for a non-zero divisor, then the quotient times the divisor is the dividend; NaN exactly for 0/0 |
| PracticePlanner.Percent | components/PracticePlanner.tsx:102 | times 100 on a finite value; NaN and the infinities pass through unchanged |
| PracticePlanner.ProgressPercentage | components/PracticePlanner.tsx:102 | 0 without a routine; a finite value in [0, 100] for a positive length and a count within it |
| PracticePlanner.SessionSeconds | components/PracticePlanner.tsx:24 | the session length `totalDuration * 60` is a whole number of minutes, exactly `totalDuration` of them, and positive iff `totalDuration` is; the countdown load (line 24), the reset (line 81) and the progress formula (line 102) all use it |
| PracticePlanner.ProgressEnds | components/PracticePlanner.tsx:102 | 0 at the full session, 100 at zero seconds left |
| PracticePlanner.ProgressMonotone | components/PracticePlanner.tsx:102 | progress grows as the count goes down |
| PracticePlanner.ProgressOfEmptyRoutine | components/PracticePlanner.tsx:102 | a zero-minute routine gives NaN |
| PracticePlanner.Planner.constructor | components/PracticePlanner.tsx:8-19 | not loading, no routine, count 0, stopped and not finished |
| PracticePlanner.Planner.SetRoutine | components/PracticePlanner.tsx:22-28 | a new routine loads `totalDuration * 60` into a stopped, unfinished countdown; clearing it leaves the timer alone |
| PracticePlanner.Planner.TimerEffect | components/PracticePlanner.tsx:37-41 | an active countdown at 0 stops, is marked finished and sounds the alarm once, with the count unchanged; otherwise nothing changes |
| PracticePlanner.Planner.IntervalTick | components/PracticePlanner.tsx:33-36 | a tick while active with time left takes off exactly one second, and the count never goes negative |
| PracticePlanner.Planner.ToggleTimer | components/PracticePlanner.tsx:76 | flips `isActive` and nothing else |
| PracticePlanner.Planner.ResetTimer | components/PracticePlanner.tsx:78-82 | stopped and unfinished; the count is restored to the session length only when there is a routine |
| PracticePlanner.Planner.StartGenerate | components/PracticePlanner.tsx:91 | a request is in flight |
| PracticePlanner.Planner.CompleteGenerate | components/PracticePlanner.tsx:90-100 | a reply replaces and loads the routine; a failure is reported once and leaves routine and timer unchanged; loading ends on both paths |

## Left out

- **Web Audio.** Oscillators, gain ramps, context resume and close, and the alarm chime (components/Metronome.tsx:23-38, 62-68, 81-86; components/PracticePlanner.tsx:46-74) are browser calls. A click is an appended time in `emitted`, and an alarm is a count in `alarms`.
- **Host timers.** `setTimeout`, `clearTimeout`, `setInterval` and `clearInterval` are not modelled as timers. Each timeout firing is a call to `Transport.Wake`, and each interval firing is a call to `Planner.IntervalTick`. The 25 ms lookahead period is not modelled, because only its firings matter.
- **Reading the audio clock.** The model reads the clock once per operation, as its `now` argument, and holds it fixed for that operation. The source re-reads `currentTime` at every test of the scheduling loop (components/Metronome.tsx:50) and twice on start (components/Metronome.tsx:71-72), so a clock that moves during a pass is not captured.
- **The component's unmount cleanup** (components/Metronome.tsx:81-86). It only clears the timeout and closes the audio context.
- **React rendering and effects.** Effects run when the model's caller invokes them.
  - `SyncTempoRef` is the effect that copies `bpm` into `bpmRef`.
  - `SetRoutine` includes the routine effect.
  - `TimerEffect` is the timer effect.
  - The effect's dependency check on object identity is not modelled: setting a routine always reloads the timer.
- **Floating point.** Times, beat lengths and percentages are exact reals, so rounding in `60 / bpm` and in the accumulated cursor is not captured. Counts of seconds and minutes are integers: a non-integer `totalDuration` or `timeLeft` is not modelled.
- Metronome.Transport.SlideTempo: takes the range [40, 240] as a precondition. The slider's `min`/`max` attributes keep it there, and `parseInt` of its value is not modelled.
- Notes.GetScaleNotes: intervals are natural numbers. A negative interval would index outside the table in the source, and no scale of the table has one.
- Fretboard.BuildStringRow: reads the open string's index with `RootIndex`, a match over the names, rather than by searching the table. `Notes.IndexOfNote` proves the two agree, and `Fretboard.StringRowFromTable` states the row in terms of `indexOf`.
- **`stringNotes` memoisation.** `useMemo` only caches the rows, so it is not modelled.
- **The tutor's other parts.** The remote language-model service (services/gemini.ts), the chat coach (components/AICoach.tsx), view routing (App.tsx), the service worker (sw.js) and all JSX and styling are not part of this model. The generate request's outcome is the `reply` argument of `CompleteGenerate`, with `None` for a request that threw.
