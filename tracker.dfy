/**
 * The widget's component state and its handlers. The component holds the
 * task list and the map of running timers and replaces them on each user
 * action; here they are the two fields of a `TimeTracker` and each handler
 * is a method that reassigns them. Every handler runs as one atomic step;
 * the clock reading (`Date.now()`), the new task's id and its locale date
 * text are parameters.
 */
module Tracker {
  import opened Tasks

  class TimeTracker {
    /** The tasks, most recently added first. */
    var tasks: seq<Task>
    /** The timer of each task that has one, keyed by task id. */
    var timers: map<int, Timer>

    /**
     * Every total equals the sum of its task's sessions, and a timer entry
     * exists only while it runs.
     */
    ghost predicate Valid()
      reads this
    {
      && AllConsistent(tasks)
      && forall k :: k in timers ==> timers[k].isRunning
    }

    /**
     * Starts with the tasks read back from storage (none when nothing was
     * saved) and with no timers: timers are not saved, so a reload loses
     * any segment that was running.
     */
    constructor (saved: seq<Task>)
      ensures tasks == saved && timers == map[]
      ensures Valid() <==> AllConsistent(saved)
    {
      tasks := saved;
      timers := map[];
    }

    /**
     * `addTask`: puts a new task with nothing recorded in front of the list
     * and starts its timer at once.
     */
    method AddTask(id: int, name: string, date: string, now: int)
      modifies this
      ensures tasks == [NewTask(id, name, date)] + old(tasks)
      ensures timers == old(timers)[id := Timer(now, true)]
      ensures old(Valid()) ==> Valid()
    {
      var task := NewTask(id, name, date);
      tasks := [task] + tasks;
      timers := timers[id := Timer(now, true)];
    }

    /**
     * `startTimer`: (re)starts the timer of `id` at `now`. A timer that
     * was already running is overwritten and its segment is lost.
     */
    method StartTimer(id: int, now: int)
      modifies this
      ensures tasks == old(tasks)
      ensures timers == old(timers)[id := Timer(now, true)]
      ensures old(Valid()) ==> Valid()
    {
      timers := timers[id := Timer(now, true)];
    }

    /**
     * `stopTimer`: when `id` has a running timer, every task with that id
     * records the rounded running time as a session and the timer is
     * removed; otherwise nothing changes.
     */
    method StopTimer(id: int, now: int)
      requires IsRunning(timers, id) ==> timers[id].startTime <= now
      modifies this
      ensures !old(IsRunning(timers, id)) ==> tasks == old(tasks) && timers == old(timers)
      ensures old(IsRunning(timers, id)) ==>
        var start := old(timers[id].startTime);
        && tasks == CommitSession(old(tasks), id, Session(start, RoundedSeconds(start, now)))
        && timers == old(timers) - {id}
      ensures old(Valid()) ==> Valid()
    {
      if id in timers && timers[id].isRunning {
        var timer := timers[id];
        var duration := RoundedSeconds(timer.startTime, now);
        if Valid() {
          CommitKeepsConsistent(tasks, id, Session(timer.startTime, duration));
        }
        tasks := CommitSession(tasks, id, Session(timer.startTime, duration));
        timers := timers - {id};
      }
    }

    /**
     * `deleteTask`: drops every task with the id, keeping the others in
     * order, and discards its timer; an unknown id changes nothing.
     */
    method DeleteTask(id: int)
      modifies this
      ensures tasks == RemoveTasks(old(tasks), id)
      ensures timers == old(timers) - {id}
      ensures (forall i :: 0 <= i < |old(tasks)| ==> old(tasks)[i].id != id) && id !in old(timers)
        ==> tasks == old(tasks) && timers == old(timers)
      ensures old(Valid()) ==> Valid()
    {
      if forall i :: 0 <= i < |tasks| ==> tasks[i].id != id {
        RemoveAbsent(tasks, id);
      }
      if Valid() {
        RemoveKeepsConsistent(tasks, id);
      }
      tasks := RemoveTasks(tasks, id);
      timers := timers - {id};
    }
  }
}
