/**
 * The records kept by the job store and the store itself: the process-wide
 * object holding the id counter, the job table and the file table.
 */
module Jobs {
  import opened Wrappers

  datatype Status = Pending | Running | Completed | Failed

  /** The string a status is stored and sent as. */
  function StatusName(s: Status): string {
    match s
    case Pending => "PENDING"
    case Running => "RUNNING"
    case Completed => "COMPLETED"
    case Failed => "FAILED"
  }

  /** One log line; `level` is whatever the worker sent, not validated. */
  datatype LogEntry = LogEntry(message: string, level: string, timestamp: string)

  datatype Job = Job(
    id: nat,
    fileId: string,
    fileName: string,
    delay: int,
    status: Status,
    log: seq<LogEntry>,
    summary: string,
    updatedFileBase64: Option<string>,
    totalPosts: nat,
    postsCompleted: nat)

  /** Every key of the job table is an id already handed out, and names its own record. */
  ghost predicate Keyed(jobs: map<int, Job>, lastJobId: nat) {
    forall id :: id in jobs ==> 1 <= id <= lastJobId && jobs[id].id == id
  }

  /** The shared store: the counter, the job table and the file table. */
  class JobStore {
    var lastJobId: nat
    var jobs: map<int, Job>
    var fileStorage: map<string, string>

    ghost predicate Valid()
      reads this
    {
      Keyed(jobs, lastJobId)
    }

    /** The store as its first user finds it: no jobs, no files, counter at zero. */
    constructor ()
      ensures Valid()
      ensures lastJobId == 0 && jobs == map[] && fileStorage == map[]
    {
      lastJobId := 0;
      jobs := map[];
      fileStorage := map[];
    }
  }
}
