/**
 * Clients of `TimeTracker` that replay typical uses of the widget and
 * show what its handler contracts let a caller conclude.
 */
module Scenarios {
  import opened Tasks
  import opened TimeFormat
  import opened Tracker

  /**
   * Add "Write spec" at `t0`, restart its timer at `t0`, stop it 125 s
   * later: one session of 125 s is recorded, shown as "00:02:05".
   */
  method AddRestartStop(id: int, date: string, t0: int)
    returns (total: nat, sessions: seq<Session>, shown: string)
    ensures total == 125 && sessions == [Session(t0, 125)]
    ensures shown == "00:02:05"
  {
    var app := new TimeTracker([]);
    app.AddTask(id, "Write spec", date, t0);
    app.StartTimer(id, t0);
    app.StopTimer(id, t0 + 125000);
    RoundedUnique(t0, t0 + 125000, 125);
    total, sessions := app.tasks[0].totalTime, app.tasks[0].sessions;
    var elapsed := DisplayedElapsed(app.tasks[0], app.timers, t0 + 125000);
    assert elapsed == 125;
    shown := FormatTime(elapsed);
    FormatSample();
  }

  /** Adding "A" and then "B" lists "B" first. */
  method AddTwo(idA: int, idB: int, date: string, now: int) returns (names: seq<string>)
    ensures names == ["B", "A"]
  {
    var app := new TimeTracker([]);
    app.AddTask(idA, "A", date, now);
    app.AddTask(idB, "B", date, now);
    names := [app.tasks[0].name, app.tasks[1].name];
  }

  /**
   * Start at `t0`, start again at `t1` without stopping, stop at `t2`:
   * only the segment from `t1` is recorded; a second stop records nothing.
   */
  method DoubleStart(id: int, date: string, t0: int, t1: int, t2: int)
    returns (sessions: seq<Session>, running: bool)
    requires t0 <= t1 <= t2
    ensures sessions == [Session(t1, RoundedSeconds(t1, t2))]
    ensures !running
  {
    var app := new TimeTracker([NewTask(id, "X", date)]);
    app.StartTimer(id, t0);
    app.StartTimer(id, t1);
    app.StopTimer(id, t2);
    app.StopTimer(id, t2);
    sessions := app.tasks[0].sessions;
    running := IsRunning(app.timers, id);
  }

  /** Deleting a task removes it and its timer; deleting it again is a no-op. */
  method DeleteTwice(idA: int, idB: int, date: string, now: int)
    returns (ids: seq<int>, timed: bool)
    requires idA != idB
    ensures ids == [idA] && !timed
  {
    var app := new TimeTracker([]);
    app.AddTask(idA, "A", date, now);
    app.AddTask(idB, "B", date, now);
    app.DeleteTask(idB);
    app.DeleteTask(idB);
    ids := seq(|app.tasks|, i requires 0 <= i < |app.tasks| reads app => app.tasks[i].id);
    timed := idB in app.timers;
  }
}
