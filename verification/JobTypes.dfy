/** The background-job record and its lifecycle statuses. */
module JobTypes {
  import opened Options

  datatype Status = Queued | Running | Completed | Failed | Cancelled | Interrupted

  predicate IsTerminal(s: Status) {
    s == Completed || s == Failed || s == Cancelled || s == Interrupted
  }

  /** The statuses that `getActiveJobCount` counts. */
  predicate IsActive(s: Status) {
    s == Queued || s == Running
  }

  /**
   * What the creator supplies; no later statement writes these columns. `payload` is the serialized
   * payload, or None when it does not satisfy the payload schema.
   */
  datatype JobSpec = JobSpec(
    userId: string, chatId: Option<int>, threadId: Option<int>, tier: string,
    title: string, description: Option<string>, payload: Option<string>)

  datatype Job = Job(
    id: string, shortId: string, spec: JobSpec, status: Status,
    result: Option<string>, error: Option<string>,
    createdAt: int, startedAt: Option<int>, completedAt: Option<int>, cancelledAt: Option<int>)

  /** What an executor promise, a hard timeout or a thrown error settles to. */
  datatype Outcome = Outcome(ok: bool, result: Option<string>, error: Option<string>)

  /** The `background_jobs` table, by primary key. */
  type Table = map<string, Job>

  /** The columns each status may carry; an outcome decides `result` and `error` of a completed or failed row. */
  predicate RowShape(j: Job) {
    match j.status
    case Queued =>
      j.startedAt == None && j.completedAt == None && j.cancelledAt == None && j.result == None && j.error == None
    case Running =>
      j.startedAt.Some? && j.completedAt == None && j.cancelledAt == None && j.result == None && j.error == None
    case Completed => j.startedAt.Some? && j.completedAt.Some? && j.cancelledAt == None
    case Failed => j.startedAt.Some? && j.completedAt.Some? && j.cancelledAt == None
    case Interrupted =>
      j.startedAt.Some? && j.completedAt.Some? && j.cancelledAt == None && j.result == None && j.error.Some?
    case Cancelled =>
      j.completedAt.Some? && j.cancelledAt == j.completedAt && j.result == None && j.error == None
  }

  /** The order of a row's timestamps, none of them later than `clock`. */
  predicate RowTimes(j: Job, clock: int) {
    && j.createdAt <= clock
    && (j.startedAt.Some? ==> j.createdAt <= j.startedAt.value <= clock)
    && (j.completedAt.Some? ==> j.createdAt <= j.completedAt.value <= clock)
    && (j.startedAt.Some? && j.completedAt.Some? ==> j.startedAt.value <= j.completedAt.value)
  }
}
