/**
 * The portal calls as `executeTask` sees them: `getAttendance` (main.js:126-136) and `login`
 * (main.js:101-124) never throw, they turn the request's outcome into a record or `null` and into
 * `true` or `false`; `hasActionRecord` (main.js:180-184) reads one field of the record.
 */
module Session {
  import opened Values
  import opened Http

  /** The two tasks the heartbeat runs. */
  datatype Task = CheckInTask | CheckOutTask

  /** The portal requests a tick can make, in the order it makes them. */
  datatype Call = QueryAttendance | LogIn | PerformCheckIn | PerformCheckOut

  /** The attendance field that records a task as done upstream. */
  function Field(task: Task): string {
    match task
    case CheckInTask => "starttime"
    case CheckOutTask => "endtime"
  }

  /** The portal action that carries out a task. */
  function Perform(task: Task): Call {
    match task
    case CheckInTask => PerformCheckIn
    case CheckOutTask => PerformCheckOut
  }

  /**
   * `getAttendance`: a failed request gives `null` (None); otherwise `data?.sendpacket || {}`,
   * the `sendpacket` member when it is truthy and an empty object in every other case.
   */
  function AttendanceOf(r: Outcome): (a: Option<Json>)
    ensures a.None? <==> r.Threw?
    ensures a.Some? ==> Truthy(a.value)
    ensures r.Returned? && r.body.Obj? && "sendpacket" in r.body.fields && Truthy(r.body.fields["sendpacket"])
      ==> a == Some(r.body.fields["sendpacket"])
  {
    match r
    case Threw(_) => None
    case Returned(data) =>
      if data.Obj? && "sendpacket" in data.fields && Truthy(data.fields["sendpacket"]) then Some(data.fields["sendpacket"])
      else Some(Obj(map[]))
    case Undefined => Some(Obj(map[]))
  }

  /** `login`: the session data `myinfo` when the response is an object carrying a truthy one, None for failure. */
  function LoginInfo(r: Outcome): (info: Option<Json>)
    ensures info.Some? ==> r.Returned? && Truthy(info.value)
    ensures info.Some? <==> r.Returned? && r.body.Obj? && "myinfo" in r.body.fields && Truthy(r.body.fields["myinfo"])
  {
    if r.Returned? && r.body.Obj? && "myinfo" in r.body.fields && Truthy(r.body.fields["myinfo"]) then
      Some(r.body.fields["myinfo"])
    else None
  }

  /**
   * `hasActionRecord(record, field)`: the record's field, or `''` when it is falsy, must be truthy
   * and have a positive `length`. Only strings and arrays have a length of their own here.
   */
  function HasActionRecord(record: Json, field: string): (r: bool)
    ensures !Truthy(record) ==> !r
    ensures !record.Obj? || field !in record.fields ==> !r
    ensures record.Obj? && field in record.fields && record.fields[field].Str? ==> (r <==> record.fields[field].s != [])
    ensures r ==> record.Obj? && field in record.fields && Truthy(record.fields[field])
  {
    if !Truthy(record) then false
    else
      var target := if record.Obj? && field in record.fields && Truthy(record.fields[field]) then record.fields[field] else Str("");
      Truthy(target) && Length(target) > 0
  }

  /** The `length` property compared with 0: a string's or an array's size, 0 for every other value. */
  function Length(j: Json): nat {
    match j
    case Str(s) => |s|
    case Arr(items) => |items|
    case _ => 0
  }

  /**
   * The record `executeTask` decides on: the first query's result; when that failed, `null` if the
   * login failed too, otherwise the second query's result or `{}`.
   */
  function Observed(first: Outcome, login: Outcome, second: Outcome): (record: Json)
    ensures AttendanceOf(first).Some? ==> record == AttendanceOf(first).value
    ensures AttendanceOf(first).None? && LoginInfo(login).None? ==> record == Null
    ensures AttendanceOf(first).None? && LoginInfo(login).Some? ==> Truthy(record)
  {
    match AttendanceOf(first)
    case Some(a) => a
    case None =>
      if LoginInfo(login).None? then Null
      else
        match AttendanceOf(second)
        case Some(a) => a
        case None => Obj(map[])
  }

  /** The requests `executeTask` makes before deciding: a query, and after a failed one a login and, if it worked, a second query. */
  function Lookups(first: Outcome, login: Outcome): (calls: seq<Call>)
    ensures 1 <= |calls| <= 3 && calls[0] == QueryAttendance
    ensures AttendanceOf(first).Some? <==> |calls| == 1
    ensures |calls| == 3 <==> AttendanceOf(first).None? && LoginInfo(login).Some?
    ensures PerformCheckIn !in calls && PerformCheckOut !in calls
  {
    if AttendanceOf(first).Some? then [QueryAttendance]
    else if LoginInfo(login).None? then [QueryAttendance, LogIn]
    else [QueryAttendance, LogIn, QueryAttendance]
  }

  /**
   * When the first query and the login both fail, the record is `null` and shows nothing as done,
   * so the task's action is still performed: the failed login does not stop `executeTask`.
   */
  lemma NothingOnRecord(first: Outcome, login: Outcome, second: Outcome, task: Task)
    requires first.Threw? && LoginInfo(login).None?
    ensures Observed(first, login, second) == Null
    ensures !HasActionRecord(Observed(first, login, second), Field(task))
    ensures Lookups(first, login) == [QueryAttendance, LogIn]
  {
  }
}
