/**
 * The agent itself: the settings, the session and the day's targets it keeps between ticks, and the
 * steps of one heartbeat tick (main.js:7-16, 27-51, 101-124, 188-194, 213-308). Reading the file,
 * the clock, the random draws and the portal's answers are inputs of each step.
 */
module Agent {
  import opened Values
  import opened Config
  import opened Http
  import opened Session
  import opened Schedule

  /** `global_info` before any login: empty fields and location `J`. */
  function DefaultSession(): Json {
    Obj(map[
      "token" := Str(""), "uuid" := Str(""), "location" := Str("J"), "last_name" := Str(""),
      "group" := Str(""), "division" := Str(""), "department" := Str("")])
  }

  /** The path one heartbeat tick takes. */
  datatype Branch =
    | ConfigFailed   // loadConfig failed
    | NotWorkDay     // today is not listed as a workday
    | TargetsFailed  // getTodayTargets threw (a time setting is missing)
    | RanCheckIn     // executeTask('checkin')
    | RanCheckOut    // executeTask('checkout')
    | DoneForDay     // check-out is already on record
    | Waiting        // nothing due yet

  // ---------------------------------------------------------------- executeTask

  /** The other task. */
  function Other(task: Task): Task {
    match task
    case CheckInTask => CheckOutTask
    case CheckOutTask => CheckInTask
  }

  /** Whether the attendance record `executeTask` ends up with already shows the task as done. */
  predicate Recorded(task: Task, first: Outcome, login: Outcome, second: Outcome) {
    HasActionRecord(Observed(first, login, second), Field(task))
  }

  /** The requests `executeTask(task)` makes: the lookups, then the task's action unless it is on record. */
  function TaskCalls(task: Task, first: Outcome, login: Outcome, second: Outcome): (calls: seq<Call>)
    ensures |calls| >= 1 && calls[0] == QueryAttendance
    ensures Perform(task) in calls <==> !Recorded(task, first, login, second)
    ensures Perform(task) in calls ==> calls[|calls| - 1] == Perform(task) && Perform(task) !in calls[..|calls| - 1]
    ensures Perform(Other(task)) !in calls
  {
    var lookups := Lookups(first, login);
    if Recorded(task, first, login, second) then lookups
    else
      var calls := lookups + [Perform(task)];
      assert calls[..|calls| - 1] == lookups;
      calls
  }

  /** The task's done flag set. */
  function MarkDone(t: Targets, task: Task): Targets {
    match task
    case CheckInTask => t.(checkedIn := true)
    case CheckOutTask => t.(checkedOut := true)
  }

  /** The targets after `executeTask(task)`: the task's flag is set exactly when the record shows it done. */
  function AfterTask(t: Targets, task: Task, first: Outcome, login: Outcome, second: Outcome): (r: Targets)
    ensures r.dateKey == t.dateKey && r.checkIn == t.checkIn && r.checkOut == t.checkOut
    ensures task == CheckInTask ==> r.checkedOut == t.checkedOut && (r.checkedIn <==> t.checkedIn || Recorded(task, first, login, second))
    ensures task == CheckOutTask ==> r.checkedIn == t.checkedIn && (r.checkedOut <==> t.checkedOut || Recorded(task, first, login, second))
  {
    if Recorded(task, first, login, second) then MarkDone(t, task) else t
  }

  /** `global_info` after `executeTask`: replaced only by a login, which happens only after a failed query. */
  function SessionAfter(session: Json, first: Outcome, login: Outcome): (r: Json)
    ensures AttendanceOf(first).Some? || LoginInfo(login).None? ==> r == session
    ensures AttendanceOf(first).None? && LoginInfo(login).Some? ==> r == LoginInfo(login).value
  {
    if AttendanceOf(first).None? && LoginInfo(login).Some? then LoginInfo(login).value else session
  }

  /**
   * A failed query followed by a failed login does not stop the task: nothing is on record, the
   * action is requested after the query and the login, and no flag changes.
   */
  lemma FailedLoginStillActs(t: Targets, task: Task, first: Outcome, login: Outcome, second: Outcome)
    requires first.Threw? && LoginInfo(login).None?
    ensures TaskCalls(task, first, login, second) == [QueryAttendance, LogIn, Perform(task)]
    ensures AfterTask(t, task, first, login, second) == t
  {
    NothingOnRecord(first, login, second, task);
  }

  /** Performing the action does not set the flag: only a record seen on a later tick does. */
  lemma PerformedTaskStaysOpen(t: Targets, task: Task, first: Outcome, login: Outcome, second: Outcome)
    requires Perform(task) in TaskCalls(task, first, login, second)
    ensures AfterTask(t, task, first, login, second) == t
  {
  }

  // ---------------------------------------------------------------- startHeartbeat

  /** The branch a workday tick takes once the targets are known, in the order the checks are made. */
  function Decide(t: Targets, now: int): (b: Branch)
    ensures b in {RanCheckIn, RanCheckOut, DoneForDay, Waiting}
    ensures b == RanCheckIn ==> !t.checkedIn && Reached(now, t.checkIn)
    ensures b == RanCheckOut ==> !t.checkedOut && Reached(now, t.checkOut)
    ensures b == DoneForDay ==> t.checkedOut
  {
    if !t.checkedIn && Reached(now, t.checkIn) then RanCheckIn
    else if !t.checkedOut && Reached(now, t.checkOut) then RanCheckOut
    else if t.checkedOut then DoneForDay
    else Waiting
  }

  /** `nextGap` in minutes: an hour after a non-workday or a finished day, a minute otherwise. */
  function GapAfter(branch: Branch): (gap: int)
    ensures gap == 60 || gap == 1
    ensures gap == 60 <==> branch == NotWorkDay || branch == DoneForDay
  {
    if branch == NotWorkDay || branch == DoneForDay then 60 else 1
  }

  /** `(Math.round(nextGap * 60) + jitter) * 1000`: the gap in seconds plus 0 to 3 seconds, in milliseconds. */
  function RescheduleMs(gap: int, jitterDraw: real): (ms: int)
    requires 0.0 <= jitterDraw < 1.0
    ensures ms % 1000 == 0
    ensures gap * 60_000 <= ms <= gap * 60_000 + 3000
  {
    var j := Jitter(jitterDraw);
    (gap * 60 + j) * 1000
  }

  /** The priority order: check-in first, then check-out, then the finished day. */
  lemma DecidePriority(t: Targets, now: int)
    ensures Decide(t, now) == RanCheckIn <==> !t.checkedIn && Reached(now, t.checkIn)
    ensures Decide(t, now) == RanCheckOut <==>
      !(!t.checkedIn && Reached(now, t.checkIn)) && !t.checkedOut && Reached(now, t.checkOut)
    ensures Decide(t, now) == DoneForDay <==>
      !(!t.checkedIn && Reached(now, t.checkIn)) && !(!t.checkedOut && Reached(now, t.checkOut)) && t.checkedOut
  {
  }

  /** An invalid target time (an unreadable setting) is never reached, so its task never runs. */
  lemma InvalidTargetNeverRuns(t: Targets, now: int)
    requires t.checkIn.Invalid? && t.checkOut.Invalid?
    ensures Decide(t, now) == (if t.checkedOut then DoneForDay else Waiting)
  {
  }

  /**
   * Once the check-in is seen on record, later ticks of the same day never run it again: the flag
   * is kept because the targets are not redrawn while the day key stays the same.
   */
  lemma CheckInSettles(t: Targets, cfg: map<string, string>, first: Outcome, login: Outcome, second: Outcome,
                       dayStart: int, inDraw: real, outDraw: real, now: int)
    requires 0.0 <= inDraw < 1.0 && 0.0 <= outDraw < 1.0
    requires Recorded(CheckInTask, first, login, second)
    ensures var after := AfterTask(t, CheckInTask, first, login, second);
      Today(after, cfg, t.dateKey, dayStart, inDraw, outDraw) == Some(after)
      && Decide(after, now) != RanCheckIn
  {
  }

  /** A performed check-in that is not yet on record is tried again on the next tick past the target. */
  lemma CheckInRetried(t: Targets, cfg: map<string, string>, first: Outcome, login: Outcome, second: Outcome,
                       dayStart: int, inDraw: real, outDraw: real, now: int, later: int)
    requires 0.0 <= inDraw < 1.0 && 0.0 <= outDraw < 1.0
    requires Decide(t, now) == RanCheckIn && !Recorded(CheckInTask, first, login, second)
    requires later >= now
    ensures var after := AfterTask(t, CheckInTask, first, login, second);
      Today(after, cfg, t.dateKey, dayStart, inDraw, outDraw) == Some(after)
      && Decide(after, later) == RanCheckIn
  {
  }

  /** A day with both flags set runs nothing more and waits an hour. */
  lemma FinishedDayRests(t: Targets, now: int)
    requires t.checkedIn && t.checkedOut
    ensures Decide(t, now) == DoneForDay && GapAfter(Decide(t, now)) == 60
  {
  }

  /** What a tick comes to: the branch taken, the requests made, and the targets and session it leaves. */
  datatype Step = Step(branch: Branch, calls: seq<Call>, targets: Targets, session: Json)

  /**
   * A tick once the settings `cfg` are loaded, from targets `t` and session `s`: a non-workday and a
   * failed target draw change nothing; otherwise the first due task runs on today's targets.
   */
  function Tick(t: Targets, s: Json, cfg: map<string, string>, weekday: nat, dayKey: string, dayStart: int,
                now: int, inDraw: real, outDraw: real, first: Outcome, login: Outcome, second: Outcome): Step
    requires 0.0 <= inDraw < 1.0 && 0.0 <= outDraw < 1.0
  {
    if !IsWorkDay(cfg, weekday) then Step(NotWorkDay, [], t, s)
    else WorkdayStep(t, s, cfg, dayKey, dayStart, now, inDraw, outDraw, first, login, second)
  }

  /** A tick on a workday: fail without targets, otherwise run the task checks on today's targets. */
  function WorkdayStep(t: Targets, s: Json, cfg: map<string, string>, dayKey: string, dayStart: int,
                       now: int, inDraw: real, outDraw: real, first: Outcome, login: Outcome, second: Outcome): Step
    requires 0.0 <= inDraw < 1.0 && 0.0 <= outDraw < 1.0
  {
    match Today(t, cfg, dayKey, dayStart, inDraw, outDraw)
    case None => Step(TargetsFailed, [], t, s)
    case Some(today) => DueTask(today, s, now, first, login, second)
  }

  /** The task checks of a workday tick on today's targets: run the first due task, if any. */
  function DueTask(today: Targets, s: Json, now: int, first: Outcome, login: Outcome, second: Outcome): Step {
    var branch := Decide(today, now);
    if branch == RanCheckIn || branch == RanCheckOut then
      TaskStep(branch, if branch == RanCheckIn then CheckInTask else CheckOutTask, today, s, first, login, second)
    else Step(branch, [], today, s)
  }

  /** Running `task` on targets `today` and session `s`. */
  function TaskStep(branch: Branch, task: Task, today: Targets, s: Json, first: Outcome, login: Outcome, second: Outcome): Step {
    Step(branch, TaskCalls(task, first, login, second), AfterTask(today, task, first, login, second), SessionAfter(s, first, login))
  }

  // ---------------------------------------------------------------- the agent's state

  class Agent {
    /** `config`: the settings last loaded. */
    var config: map<string, string>
    /** `global_info`: the session data of the last successful login. */
    var session: Json
    /** `dailyTargets`. */
    var targets: Targets

    constructor ()
      ensures config == map[] && session == DefaultSession() && targets == Initial
    {
      config := map[];
      session := DefaultSession();
      targets := Initial;
    }

    /**
     * `loadConfig`: `file` is the text read from `config.ini`, None when reading failed. On success
     * the settings are replaced by the parsed file, on failure they are kept.
     */
    method LoadConfig(file: Option<string>) returns (ok: bool)
      modifies this`config
      ensures ok <==> file.Some?
      ensures config == if ok then ParseConfig(file.value) else old(config)
    {
      if file.None? {
        return false;
      }
      config := Parse(file.value);
      return true;
    }

    /** `login`: the session is replaced by `myinfo` when the response carries one. */
    method Login(response: Outcome) returns (ok: bool)
      modifies this`session
      ensures ok <==> LoginInfo(response).Some?
      ensures session == if ok then LoginInfo(response).value else old(session)
    {
      var info := LoginInfo(response);
      if info.None? {
        return false;
      }
      session := info.value;
      return true;
    }

    /**
     * `getTodayTargets` for the day named `dayKey`, which began at `dayStart`. False when `parseTime`
     * throws; the targets are then left as they were.
     */
    method GetTodayTargets(dayKey: string, dayStart: int, inDraw: real, outDraw: real) returns (ok: bool)
      requires 0.0 <= inDraw < 1.0 && 0.0 <= outDraw < 1.0
      modifies this`targets
      ensures ok <==> Today(old(targets), config, dayKey, dayStart, inDraw, outDraw).Some?
      ensures targets == if ok then Today(old(targets), config, dayKey, dayStart, inDraw, outDraw).value else old(targets)
    {
      if targets.dateKey == dayKey {
        return true;
      }
      if "checkin_time" !in config || "checkout_time" !in config {
        return false;
      }
      var checkInBase := ParseTime(dayStart, config["checkin_time"]);
      var checkOutBase := ParseTime(dayStart, config["checkout_time"]);
      var checkIn := Target(checkInBase, RandomDelay(RangeMinutes(config, "checkin_random_range_minutes"), inDraw));
      var checkOut := Target(checkOutBase, RandomDelay(RangeMinutes(config, "checkout_random_range_minutes"), outDraw));
      targets := Targets(dayKey, checkIn, checkOut, false, false);
      return true;
    }

    /**
     * `executeTask(task)`. `first` and `second` are the outcomes of the attendance queries and
     * `login` that of the login request; `calls` lists the requests made, in order.
     */
    method ExecuteTask(task: Task, first: Outcome, login: Outcome, second: Outcome) returns (calls: seq<Call>)
      modifies this`session, this`targets
      ensures calls == TaskCalls(task, first, login, second)
      ensures targets == AfterTask(old(targets), task, first, login, second)
      ensures session == SessionAfter(old(session), first, login)
    {
      var attendance;
      attendance, calls := FetchAttendance(first, login, second);
      if HasActionRecord(attendance, Field(task)) {
        targets := MarkDone(targets, task);
      } else {
        calls := calls + [Perform(task)];
      }
    }

    /** The `try` block of `executeTask`: query, and after a failed query log in and query again. */
    method FetchAttendance(first: Outcome, login: Outcome, second: Outcome) returns (attendance: Json, calls: seq<Call>)
      modifies this`session
      ensures attendance == Observed(first, login, second)
      ensures calls == Lookups(first, login)
      ensures session == SessionAfter(old(session), first, login)
    {
      attendance := Null;
      calls := [QueryAttendance];
      var queried := AttendanceOf(first);
      if queried.Some? {
        attendance := queried.value;
        return;
      }
      calls := calls + [LogIn];
      var loggedIn := Login(login);
      if loggedIn {
        calls := calls + [QueryAttendance];
        var again := AttendanceOf(second);
        attendance := if again.Some? then again.value else Obj(map[]);
      }
    }

    /**
     * One heartbeat tick: reload the settings, skip non-workdays, make sure today's targets exist,
     * then run the first due task. `file` is the settings text (None when it cannot be read),
     * `dayKey` (never empty: it names a valid date) and `weekday` describe today, `now` is the
     * current instant, the draws feed the targets and the jitter, and the outcomes feed
     * `executeTask`. Returns the branch taken, the requests made, `nextGap` and the delay before
     * the next tick.
     */
    method Heartbeat(file: Option<string>, weekday: nat, dayKey: string, dayStart: int, now: int,
                     inDraw: real, outDraw: real, jitterDraw: real,
                     first: Outcome, login: Outcome, second: Outcome)
      returns (branch: Branch, calls: seq<Call>, nextGap: int, delayMs: int)
      requires dayKey != []
      requires 0.0 <= inDraw < 1.0 && 0.0 <= outDraw < 1.0 && 0.0 <= jitterDraw < 1.0
      modifies this`config, this`session, this`targets
      ensures config == if file.Some? then ParseConfig(file.value) else old(config)
      ensures file.None? ==> branch == ConfigFailed && calls == [] && targets == old(targets) && session == old(session)
      ensures file.Some? ==>
        Step(branch, calls, targets, session) ==
        Tick(old(targets), old(session), config, weekday, dayKey, dayStart, now, inDraw, outDraw, first, login, second)
      ensures nextGap == GapAfter(branch)
      ensures delayMs == RescheduleMs(nextGap, jitterDraw)
    {
      var loaded := LoadConfig(file);
      if !loaded {
        branch, calls := ConfigFailed, [];
      } else {
        branch, calls := WorkdayTick(old(targets), old(session), weekday, dayKey, dayStart, now, inDraw, outDraw, first, login, second);
      }
      nextGap := GapAfter(branch);
      var jitter := Jitter(jitterDraw);
      delayMs := (nextGap * 60 + jitter) * 1000;
    }

    /** The part of a tick after the settings loaded: the workday test, then today's targets and the due task. */
    method WorkdayTick(ghost t0: Targets, ghost s0: Json, weekday: nat, dayKey: string, dayStart: int, now: int,
                       inDraw: real, outDraw: real, first: Outcome, login: Outcome, second: Outcome)
      returns (branch: Branch, calls: seq<Call>)
      requires 0.0 <= inDraw < 1.0 && 0.0 <= outDraw < 1.0
      requires targets == t0 && session == s0
      modifies this`session, this`targets
      ensures Step(branch, calls, targets, session) ==
        Tick(t0, s0, config, weekday, dayKey, dayStart, now, inDraw, outDraw, first, login, second)
    {
      if !IsWorkDay(config, weekday) {
        return NotWorkDay, [];
      }
      branch, calls := TodayTick(t0, s0, dayKey, dayStart, now, inDraw, outDraw, first, login, second);
    }

    /** A workday tick: make sure today's targets exist, then run the first due task. */
    method TodayTick(ghost t0: Targets, ghost s0: Json, dayKey: string, dayStart: int, now: int,
                     inDraw: real, outDraw: real, first: Outcome, login: Outcome, second: Outcome)
      returns (branch: Branch, calls: seq<Call>)
      requires 0.0 <= inDraw < 1.0 && 0.0 <= outDraw < 1.0
      requires targets == t0 && session == s0
      modifies this`session, this`targets
      ensures Step(branch, calls, targets, session) ==
        WorkdayStep(t0, s0, config, dayKey, dayStart, now, inDraw, outDraw, first, login, second)
    {
      var ready := GetTodayTargets(dayKey, dayStart, inDraw, outDraw);
      if !ready {
        return TargetsFailed, [];
      }
      branch, calls := RunDueTask(now, first, login, second);
    }

    /** The task checks of a workday tick, once today's targets exist. */
    method RunDueTask(now: int, first: Outcome, login: Outcome, second: Outcome) returns (branch: Branch, calls: seq<Call>)
      modifies this`session, this`targets
      ensures Step(branch, calls, targets, session) == DueTask(old(targets), old(session), now, first, login, second)
    {
      calls := [];
      if !targets.checkedIn && Reached(now, targets.checkIn) {
        calls := ExecuteTask(CheckInTask, first, login, second);
        branch := RanCheckIn;
      } else if !targets.checkedOut && Reached(now, targets.checkOut) {
        calls := ExecuteTask(CheckOutTask, first, login, second);
        branch := RanCheckOut;
      } else if targets.checkedOut {
        branch := DoneForDay;
      } else {
        branch := Waiting;
      }
    }
  }
}
