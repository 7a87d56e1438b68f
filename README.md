# Time-tracking widget: a verified model of its task and timer state

The widget keeps an ordered list of named tasks. Each task has an id, a name,
a creation date, a committed total time in seconds and a list of recorded
sessions. It also keeps a map from task id to a running timer, which holds
the instant the timer was started and a running flag. The user can:

- add a task, which is put first in the list with its timer already running;
- start (or restart) a task's timer;
- stop a running timer, which records one session of the rounded elapsed
  seconds on the task and adds it to the task's total;
- delete a task, which removes the task and its timer.

For each task the widget shows its total, plus the running segment while its
timer runs, as `HH:MM:SS`.

The project has four modules:

- `TimeFormat` (`time_format.dfy`) models `formatTime`. It splits seconds into
  clock fields, writes each field in decimal and pads it with `padStart`. It
  also defines `ParseTime`, which reads the text back, and proves that
  formatting round-trips and is injective.
- `Tasks` (`tasks.dfy`) holds the values: `Session`, `Task` and `Timer`. It has
  the pure meaning of each handler's list and map expression: `CommitSession`
  for the `map` in `stopTimer` and `RemoveTasks` for the `filter` in
  `deleteTask`. It also has `Math.round` of a measured interval
  (`RoundHalfUp`, and `RoundedSeconds` for a non-negative one), the displayed time (`DisplayedElapsed`) and the lemmas
  about them.
- `Tracker` (`tracker.dfy`) is the component state: class `TimeTracker` with
  fields `tasks: seq<Task>` and `timers: map<int, Timer>`. It has one method
  per handler. Each method states the new state in terms of the old state and
  keeps `Valid()`: every total equals the sum of its task's sessions, and a
  timer entry exists only while it runs.
- `Scenarios` (`scenarios.dfy`) holds client methods. They replay
  typical uses of the widget through the class's contracts alone.

The clock `Date.now()` becomes an explicit `now: int` in milliseconds. The new
task's id and its locale date text are parameters, because both come from the
browser. Ids are not assumed unique. As in the source, a session is committed
to every task that has the id, and delete drops every task that has it.

`Math.round(x / 1000)` rounds to the nearest whole number with ties upward,
so for every integer `x` it equals `(x + 500) / 1000` in flooring integer
division. That is how `RoundHalfUp` computes it. Its contract states what
rounding to the nearest second with ties upward means.

The displayed time uses `currentTime`, a clock reading refreshed only once a
second, while a start reads the clock afresh. Right after a start the interval
`currentTime - startTime` can therefore be negative by up to a second, and the
running segment is shown as 0 or -1. The model keeps that: `DisplayedElapsed`
is an integer and may fall one below the committed total.

Three facts about the handlers:

- `stopTimer` returns nothing.
- `addTask` returns no id.
- A session's `start` is the millisecond `startTime`, which the source wraps
  in a `Date`.

## Model

| member | source | states |
|---|---|---|
| `TimeFormat.SplitSeconds` | src/App.js:30-32 | hours, minutes and seconds recombine to the input; minutes and seconds are below 60 |
| `TimeFormat.SplitUnique` | src/App.js:30-32 | any reading with minutes and seconds below 60 is the split of the seconds it stands for, so the split is the only one |
| `TimeFormat.DecimalDigits` | src/App.js:34 | `toString` of a whole number: at least one digit, all digits, no leading zero unless it is 0; one digit exactly below 10, at most two exactly below 100 |
| `TimeFormat.DigitsRoundTrip` | src/App.js:34 | reading the decimal text of n gives back n |
| `TimeFormat.PadStart` | src/App.js:34 | `padStart(width, pad)`: the result has length max(width, \|s\|), ends with `s`, and everything before `s` is `pad` |
| `TimeFormat.PadKeepsValue` | src/App.js:34 | padding a digit string with '0' keeps it a digit string with the same value |
| `TimeFormat.FieldShape` | src/App.js:34 | a padded field is a digit string worth n, at least two wide, and exactly two wide iff n < 100; it starts with '0' only for n < 10 |
| `TimeFormat.FieldOneDigit` | src/App.js:34 | a one-digit field gets exactly one leading '0' |
| `TimeFormat.ReadFields` | src/App.js:34 | the padded fields of a reading with minutes and seconds below 60, joined by ':', form a clock text whose three fields read back as that reading; eight characters iff hours are below 100 |
| `TimeFormat.LeadingHourZero` | src/App.js:34 | the joined fields start with '0' only when the hours are a single digit |
| `TimeFormat.HoursBelow` | src/App.js:30 | the hour count is below 100 exactly when the duration is under 100 hours |
| `TimeFormat.FormatTime` | src/App.js:29-35 | the result is digits, ':', two digits, ':', two digits; its three fields read as the hours, minutes and seconds of the split of the input (minutes and seconds below 60); it is eight characters iff the duration is under 100 hours (hours are unbounded), and a longer text has no leading zero |
| `TimeFormat.FormatRoundTrip` | src/App.js:29-35 | reading the formatted text back gives the original number of seconds |
| `TimeFormat.FormatInjective` | src/App.js:29-35 | different durations are shown as different texts |
| `TimeFormat.FormatSample` | src/App.js:29-35 | 125 seconds are shown as "00:02:05" |
| `TimeFormat.FormatHundredHours` | src/App.js:29-35 | 100 hours are shown as "100:00:00": the hour field is not cut or padded beyond two places |
| `Tasks.NewTask` | src/App.js:38-44 | a new task has the given id, name and date, total 0, no sessions, and is consistent |
| `Tasks.Task.Commit` | src/App.js:74-81 | committing a session adds its duration to the total and appends it after the unchanged earlier sessions; id, name and date are kept |
| `Tasks.TotalDurationAppend` | src/App.js:76-80 | the sum of session durations splits over concatenation |
| `Tasks.RoundHalfUp` | src/App.js:132 | `Math.round(x / 1000)`: the whole number r with 1000r - 500 <= x < 1000r + 500 (nearest, ties upward); non-negative iff x >= -500 |
| `Tasks.RoundHalfUpMonotone` | src/App.js:132 | a larger interval never rounds to fewer seconds |
| `Tasks.RoundedSeconds` | src/App.js:70 | the whole number of seconds within half a second of the measured interval, ties upward; never negative |
| `Tasks.RoundedUnique` | src/App.js:70 | any whole number within half a second of the interval is the rounded value |
| `Tasks.RoundedMonotone` | src/App.js:132 | a later clock reading never gives a shorter rounded interval |
| `Tasks.CommitSession` | src/App.js:72-83 | same length and order; every task with the id is that task with the session committed, every other task is unchanged |
| `Tasks.CommitKeepsConsistent` | src/App.js:72-83 | if every total equals the sum of its sessions before a stop, it does after |
| `Tasks.CommitAppendsOnly` | src/App.js:72-83 | a stop never lowers a total, never alters a recorded session, and keeps each task's id, name and date |
| `Tasks.RemoveTasks` | src/App.js:92 | a task is in the result iff it was in the list and has a different id; the list never grows |
| `Tasks.RemoveCounts` | src/App.js:92 | each task with another id is kept as many times as it occurred; tasks with the id are all gone |
| `Tasks.RemoveAbsent` | src/App.js:92 | deleting an id that no task has leaves the list unchanged |
| `Tasks.RemoveAppend` | src/App.js:92 | deleting splits over concatenation, so the remaining tasks keep their relative order |
| `Tasks.RemoveIdempotent` | src/App.js:92 | deleting the same id twice equals deleting it once |
| `Tasks.RemoveKeepsConsistent` | src/App.js:92 | deleting keeps every remaining total equal to the sum of its sessions |
| `Tasks.DisplayedElapsed` | src/App.js:130-133 | equal to the committed total when the task has no running timer; otherwise the total plus `Math.round` of (now - start) / 1000 for any clock reading, which is the rounded running time once now >= start; not below the total once now >= start - 500, and at most one below it unless the reading lags more than 1.5 s |
| `Tasks.DisplayMonotone` | src/App.js:130-133 | as the clock advances the shown time never goes backwards, for any clock readings |
| `Tasks.StaleClockShowsMinusOne` | src/App.js:130-133 | a new task whose timer started 600 ms after the last clock refresh shows -1 |
| `Tasks.StopKeepsDisplay` | src/App.js:67-87 | stopping a running timer at `now` leaves every task's shown time at `now` unchanged: the segment moves from the timer into the total |
| `Tasks.RestartDiscardsSegment` | src/App.js:57-65 | at a clock reading equal to the (re)start instant a task shows only its committed total, so a segment running before a double start is lost |
| `Tracker.TimeTracker.constructor` | src/App.js:7-13 | starts with the loaded tasks and no timers; valid iff the loaded tasks are consistent |
| `Tracker.TimeTracker.AddTask` | src/App.js:37-55 | the list becomes the new empty task followed by the old list unchanged; the new id gets a running timer started at `now`; other timers unchanged; validity kept |
| `Tracker.TimeTracker.StartTimer` | src/App.js:57-65 | the task list is unchanged; the id's timer is set to running from `now`, overwriting a running one; other timers unchanged; validity kept |
| `Tracker.TimeTracker.StopTimer` | src/App.js:67-89 | without a running timer nothing changes; with one, the rounded session is committed to every task with the id and the id leaves the timer map; validity kept |
| `Tracker.TimeTracker.DeleteTask` | src/App.js:91-98 | the list is filtered by id and the id leaves the timer map; an unknown id with no timer changes nothing; validity kept |
| `Scenarios.AddRestartStop` | src/App.js:37-89 | add, restart and stop 125 s later records one 125 s session, total 125, shown "00:02:05" |
| `Scenarios.AddTwo` | src/App.js:53 | adding "A" then "B" lists "B" before "A" |
| `Scenarios.DoubleStart` | src/App.js:57-89 | after two starts and a stop only the segment from the second start is recorded; a second stop records nothing more |
| `Scenarios.DeleteTwice` | src/App.js:91-96 | deleting a task removes it and its timer, and deleting it again changes nothing |

## Left out

- Rendering is not modelled: markup, styling and the confirmation dialog (src/App.js:100-205), and the `taskToDelete` dialog state. They are presentation only.
- `localStorage` load and save and JSON (de)serialisation are not modelled, because they are browser I/O. The constructor takes the loaded list as a parameter. The source saves the list after every change to it; that save is not modelled.
- The one-second `setInterval` refresh of `currentTime` is not modelled. It is wall-clock timing; the displayed time is a function of an explicit `now`.
- `toLocaleDateString()` and `new Date(startTime)` are not modelled, because they are locale and date objects. The date is an uninterpreted string parameter, and a session's start is the integer `startTime`.
- Id generation by `Date.now()` is not modelled. The id is a parameter.
- The non-empty `trim()` check in the add button's handler is not modelled. It belongs to the UI, and JavaScript whitespace is Unicode-wide.
- React's batched and stale-closure updates are not modelled. Each handler is one sequential atomic step.
- Tracker.TimeTracker.StopTimer: requires a running timer's start to be no later than `now`. The model assumes the wall clock does not go back between a start and its stop. If it does, `stopTimer` (src/App.js:70) computes a negative duration, lowers the total and records a negative session; durations here are `nat` and cannot express that.
- Tasks.RoundedSeconds: defined only for `startTime <= now`, the fresh reading `stopTimer` takes; the stale reading of the display goes through `RoundHalfUp` instead.
- TimeFormat.FormatTime: takes a non-negative number of seconds. The source also renders a negative reading, such as the -1 of `StaleClockShowsMinusOne`, and shows it as "-1:-1:-1"; that rendering of negative numbers is not modelled.
- TimeFormat.DecimalDigits: models `toString` for whole numbers only. It does not model the exponent notation JavaScript uses from 10^21 upward.
- JavaScript numbers are doubles. The model uses unbounded integers, which agree with them for every whole number below 2^53.
