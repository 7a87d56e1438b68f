/**
 * The values the time-tracking widget keeps: tasks with their recorded
 * sessions, and the running timers keyed by task id. The clock is an
 * explicit `now` in milliseconds; durations are whole seconds.
 *
 * The functions here are the value-level meaning of the widget's handlers
 * (the `map` that commits a session, the `filter` that deletes a task, the
 * rounding of a measured interval, the time shown for a task) and the
 * lemmas state what the handlers promise about them.
 */
module Tasks {

  /** One closed timing interval: when it started (ms) and its length (s). */
  datatype Session = Session(start: int, duration: nat)

  /**
   * A tracked task. `date` is the creation date as the browser's locale
   * writes it, kept only for display.
   */
  datatype Task = Task(id: int, name: string, date: string, totalTime: nat, sessions: seq<Session>)
  {
    /** The task with `s` recorded: its length added to the total, `s` appended. */
    function Commit(s: Session): (t: Task)
      ensures t.id == id && t.name == name && t.date == date
      ensures t.totalTime == totalTime + s.duration
      ensures |t.sessions| == |sessions| + 1 && t.sessions[..|sessions|] == sessions
      ensures t.sessions[|sessions|] == s
    {
      this.(totalTime := totalTime + s.duration, sessions := sessions + [s])
    }
  }

  /** A timer entry: when it was (re)started (ms) and whether it runs. */
  datatype Timer = Timer(startTime: int, isRunning: bool)

  /** The total length of a list of sessions. */
  function TotalDuration(ss: seq<Session>): nat {
    if ss == [] then 0 else TotalDuration(ss[..|ss| - 1]) + ss[|ss| - 1].duration
  }

  /** A task whose total is the sum of its recorded sessions. */
  predicate Consistent(t: Task) {
    t.totalTime == TotalDuration(t.sessions)
  }

  predicate AllConsistent(ts: seq<Task>) {
    forall i :: 0 <= i < |ts| ==> Consistent(ts[i])
  }

  /** The total of a concatenation is the sum of the totals. */
  lemma {:induction false} TotalDurationAppend(a: seq<Session>, b: seq<Session>)
    ensures TotalDuration(a + b) == TotalDuration(a) + TotalDuration(b)
    decreases |b|
  {
    if b != [] {
      var b' := b[..|b| - 1];
      assert (a + b)[..|a + b| - 1] == a + b';
      assert (a + b)[|a + b| - 1] == b[|b| - 1];
      TotalDurationAppend(a, b');
    } else {
      assert a + b == a;
    }
  }

  // ---------------------------------------------------------------- creation

  /** A freshly added task: nothing recorded yet. */
  function NewTask(id: int, name: string, date: string): (t: Task)
    ensures t.id == id && t.name == name && t.date == date
    ensures t.totalTime == 0 && t.sessions == []
    ensures Consistent(t)
  {
    Task(id, name, date, 0, [])
  }

  // ---------------------------------------------------------------- rounding

  /**
   * `Math.round(x / 1000)` for a whole number of milliseconds x: the
   * nearest whole second, halves rounded up (towards +infinity, also for
   * negative x). Math.round(y) = floor(y + 1/2), and Dafny's division by a
   * positive divisor is floor division, so it is (x + 500) / 1000.
   */
  function RoundHalfUp(x: int): (r: int)
    ensures 1000 * r - 500 <= x < 1000 * r + 500
    ensures r >= 0 <==> x >= -500
  {
    (x + 500) / 1000
  }

  /** A larger interval never rounds to fewer seconds. */
  lemma RoundHalfUpMonotone(x: int, y: int)
    requires x <= y
    ensures RoundHalfUp(x) <= RoundHalfUp(y)
  {
  }

  /**
   * `Math.round((now - startTime) / 1000)` for a clock reading no earlier
   * than the start: the measured interval in whole seconds.
   */
  function RoundedSeconds(startTime: int, now: int): (d: nat)
    requires startTime <= now
    ensures 1000 * d - 500 <= now - startTime < 1000 * d + 500
  {
    RoundHalfUp(now - startTime)
  }

  /** The rounding is the only whole number within half a second of the interval. */
  lemma RoundedUnique(startTime: int, now: int, k: nat)
    requires startTime <= now
    requires 1000 * k - 500 <= now - startTime < 1000 * k + 500
    ensures RoundedSeconds(startTime, now) == k
  {
  }

  /** A later clock reading never gives a shorter rounded interval. */
  lemma RoundedMonotone(startTime: int, now1: int, now2: int)
    requires startTime <= now1 <= now2
    ensures RoundedSeconds(startTime, now1) <= RoundedSeconds(startTime, now2)
  {
  }

  // ---------------------------------------------------------------- timers

  /** The id has a timer entry that is running. */
  predicate IsRunning(timers: map<int, Timer>, id: int) {
    id in timers && timers[id].isRunning
  }

  // ---------------------------------------------------------------- stop

  /**
   * `tasks.map(task => task.id === id ? <task with s committed> : task)`:
   * every task with the id gets the session, every other task is kept.
   */
  function CommitSession(ts: seq<Task>, id: int, s: Session): (r: seq<Task>)
    ensures |r| == |ts|
    ensures forall i :: 0 <= i < |ts| && ts[i].id == id ==> r[i] == ts[i].Commit(s)
    ensures forall i :: 0 <= i < |ts| && ts[i].id != id ==> r[i] == ts[i]
  {
    if ts == [] then []
    else [if ts[0].id == id then ts[0].Commit(s) else ts[0]] + CommitSession(ts[1..], id, s)
  }

  /** Committing a session keeps every task's total equal to its sessions' sum. */
  lemma CommitKeepsConsistent(ts: seq<Task>, id: int, s: Session)
    requires AllConsistent(ts)
    ensures AllConsistent(CommitSession(ts, id, s))
  {
    var r := CommitSession(ts, id, s);
    forall i | 0 <= i < |r| ensures Consistent(r[i]) {
      if ts[i].id == id {
        assert r[i].sessions == ts[i].sessions + [s];
        TotalDurationAppend(ts[i].sessions, [s]);
        assert TotalDuration([s]) == s.duration by {
          assert [s][..0] == [];
        }
      }
    }
  }

  /**
   * Committing never alters a recorded session and never lowers a total:
   * every task keeps its id, name, date and earlier sessions as a prefix.
   */
  lemma CommitAppendsOnly(ts: seq<Task>, id: int, s: Session, i: nat)
    requires i < |ts|
    ensures var t, t' := ts[i], CommitSession(ts, id, s)[i];
      && t'.id == t.id && t'.name == t.name && t'.date == t.date
      && t.totalTime <= t'.totalTime
      && |t.sessions| <= |t'.sessions| && t'.sessions[..|t.sessions|] == t.sessions
  {
    var t, t' := ts[i], CommitSession(ts, id, s)[i];
    if t.id != id {
      assert t'.sessions[..|t.sessions|] == t.sessions;
    }
  }

  // ---------------------------------------------------------------- delete

  /** `tasks.filter(task => task.id !== id)`. */
  function RemoveTasks(ts: seq<Task>, id: int): (r: seq<Task>)
    ensures forall t :: t in r <==> t in ts && t.id != id
    ensures |r| <= |ts|
  {
    if ts == [] then []
    else
      assert ts == [ts[0]] + ts[1..];
      (if ts[0].id == id then [] else [ts[0]]) + RemoveTasks(ts[1..], id)
  }

  /**
   * Deleting removes exactly the tasks with the id: every other task is kept
   * as many times as it occurs.
   */
  lemma {:induction false} RemoveCounts(ts: seq<Task>, id: int, t: Task)
    ensures multiset(RemoveTasks(ts, id))[t] == if t.id == id then 0 else multiset(ts)[t]
  {
    if ts != [] {
      assert ts == [ts[0]] + ts[1..];
      RemoveCounts(ts[1..], id, t);
    }
  }

  /** Deleting an id no task has changes nothing. */
  lemma {:induction false} RemoveAbsent(ts: seq<Task>, id: int)
    requires forall i :: 0 <= i < |ts| ==> ts[i].id != id
    ensures RemoveTasks(ts, id) == ts
  {
    if ts != [] {
      RemoveAbsent(ts[1..], id);
      assert ts == [ts[0]] + ts[1..];
    }
  }

  /** Deleting keeps the remaining tasks in their order: it splits over concatenation. */
  lemma {:induction false} RemoveAppend(a: seq<Task>, b: seq<Task>, id: int)
    ensures RemoveTasks(a + b, id) == RemoveTasks(a, id) + RemoveTasks(b, id)
  {
    if a != [] {
      var head := if a[0].id == id then [] else [a[0]];
      assert (a + b)[1..] == a[1..] + b;
      assert RemoveTasks(a + b, id) == head + RemoveTasks(a[1..] + b, id);
      RemoveAppend(a[1..], b, id);
      assert RemoveTasks(a, id) == head + RemoveTasks(a[1..], id);
    } else {
      assert a + b == b;
    }
  }

  /** Deleting the same id twice is deleting it once. */
  lemma RemoveIdempotent(ts: seq<Task>, id: int)
    ensures RemoveTasks(RemoveTasks(ts, id), id) == RemoveTasks(ts, id)
  {
    var r := RemoveTasks(ts, id);
    forall i | 0 <= i < |r| ensures r[i].id != id {
      assert r[i] in r;
    }
    RemoveAbsent(r, id);
  }

  /** Deleting keeps every remaining task consistent. */
  lemma RemoveKeepsConsistent(ts: seq<Task>, id: int)
    requires AllConsistent(ts)
    ensures AllConsistent(RemoveTasks(ts, id))
  {
    var r := RemoveTasks(ts, id);
    forall i | 0 <= i < |r| ensures Consistent(r[i]) {
      assert r[i] in r;
      var j :| 0 <= j < |ts| && ts[j] == r[i];
    }
  }

  // ---------------------------------------------------------------- display

  /**
   * The time shown for a task at clock reading `now`: its committed total,
   * plus the rounded running segment when its timer runs. `now` is the
   * last refreshed clock reading, which may be earlier than a timer's start
   * (the reading is refreshed once a second, a start reads the clock
   * afresh); the segment then rounds to 0 or to -1.
   */
  function DisplayedElapsed(t: Task, timers: map<int, Timer>, now: int): (r: int)
    ensures !IsRunning(timers, t.id) ==> r == t.totalTime
    ensures IsRunning(timers, t.id) ==> r == t.totalTime + RoundHalfUp(now - timers[t.id].startTime)
    ensures IsRunning(timers, t.id) && timers[t.id].startTime <= now ==>
      r == t.totalTime + RoundedSeconds(timers[t.id].startTime, now)
    ensures r >= t.totalTime - 1 || (IsRunning(timers, t.id) && now < timers[t.id].startTime - 1500)
    ensures !IsRunning(timers, t.id) || timers[t.id].startTime <= now + 500 ==> r >= t.totalTime
  {
    if IsRunning(timers, t.id) then t.totalTime + RoundHalfUp(now - timers[t.id].startTime)
    else t.totalTime
  }

  /** The shown time never goes backwards as the clock advances. */
  lemma DisplayMonotone(t: Task, timers: map<int, Timer>, now1: int, now2: int)
    requires now1 <= now2
    ensures DisplayedElapsed(t, timers, now1) <= DisplayedElapsed(t, timers, now2)
  {
    if IsRunning(timers, t.id) {
      var start := timers[t.id].startTime;
      RoundHalfUpMonotone(now1 - start, now2 - start);
    }
  }

  /**
   * Stopping a running timer at `now` does not change any shown time at
   * `now`: the rounded segment moves from the timer into the totals.
   */
  lemma StopKeepsDisplay(ts: seq<Task>, timers: map<int, Timer>, id: int, now: int, i: nat)
    requires IsRunning(timers, id) && timers[id].startTime <= now && i < |ts|
    ensures var s := Session(timers[id].startTime, RoundedSeconds(timers[id].startTime, now));
      DisplayedElapsed(CommitSession(ts, id, s)[i], timers - {id}, now)
        == DisplayedElapsed(ts[i], timers, now)
  {
  }

  /**
   * Read at the instant of a restart, the task shows just the committed
   * total: any segment running before the restart is discarded, not recorded.
   */
  lemma RestartDiscardsSegment(t: Task, timers: map<int, Timer>, now: int)
    ensures DisplayedElapsed(t, timers[t.id := Timer(now, true)], now) == t.totalTime
  {
  }

  /**
   * When the last refreshed clock reading is more than half a second older
   * than a timer's start, the task is shown one second below its total:
   * a task added 600 ms after the last refresh is shown at -1 seconds.
   */
  lemma StaleClockShowsMinusOne(id: int, name: string, date: string, start: int)
    ensures DisplayedElapsed(NewTask(id, name, date), map[id := Timer(start, true)], start - 600) == -1
  {
  }
}
