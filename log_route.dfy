/**
 * POST /api/job/log: append a log line verbatim and, for progress lines,
 * overwrite the two counters from the progress pattern.
 */
module LogRoute {
  import opened Wrappers
  import opened Jobs
  import opened ProgressParse

  datatype Response = Success | JobNotFound

  /** The record after one append. */
  function WithEntry(job: Job, entry: LogEntry): (r: Job)
    ensures |r.log| == |job.log| + 1 && job.log <= r.log && r.log[|job.log|] == entry
    ensures entry.level == "progress" && ParseProgress(entry.message).Some? ==>
              (r.postsCompleted, r.totalPosts) == ParseProgress(entry.message).value
    ensures entry.level != "progress" || ParseProgress(entry.message).None? ==>
              r.postsCompleted == job.postsCompleted && r.totalPosts == job.totalPosts
    ensures r.(log := job.log, postsCompleted := job.postsCompleted, totalPosts := job.totalPosts) == job
  {
    var pushed := job.(log := job.log + [entry]);
    if entry.level == "progress" then
      match ParseProgress(entry.message)
      case Some((completed, total)) => pushed.(postsCompleted := completed, totalPosts := total)
      case None => pushed
    else pushed
  }

  /** Replacing a record by one with the same id keeps the id invariant. */
  lemma KeyedReplace(jobs: map<int, Job>, lastJobId: nat, id: int, job: Job)
    requires Keyed(jobs, lastJobId) && id in jobs && job.id == id
    ensures Keyed(jobs[id := job], lastJobId)
  {
  }

  /** The state change for a known job: push the entry, then update the counters. */
  method Push(store: JobStore, id: int, entry: LogEntry)
    requires store.Valid() && id in store.jobs
    modifies store
    ensures store.Valid()
    ensures store.jobs == old(store.jobs)[id := WithEntry(old(store.jobs)[id], entry)]
    ensures store.lastJobId == old(store.lastJobId) && store.fileStorage == old(store.fileStorage)
  {
    var job := store.jobs[id];
    var next := job.(log := job.log + [entry]);
    if entry.level == "progress" {
      var parsed := ParseProgress(entry.message);
      if parsed.Some? {
        var (completed, total) := parsed.value;
        next := next.(postsCompleted := completed, totalPosts := total);
      }
    }
    KeyedReplace(store.jobs, store.lastJobId, id, next);
    store.jobs := store.jobs[id := next];
  }

  /** The handler: an unknown id is answered with 404 and changes nothing. */
  method Post(store: JobStore, jobId: int, message: string, level: string, timestamp: string)
    returns (response: Response)
    requires store.Valid()
    modifies store
    ensures store.Valid()
    ensures response == (if jobId in old(store.jobs) then Success else JobNotFound)
    ensures jobId in old(store.jobs) ==>
              store.jobs == old(store.jobs)[jobId := WithEntry(old(store.jobs)[jobId], LogEntry(message, level, timestamp))]
    ensures jobId !in old(store.jobs) ==> store.jobs == old(store.jobs)
    ensures store.lastJobId == old(store.lastJobId) && store.fileStorage == old(store.fileStorage)
  {
    if jobId in store.jobs {
      Push(store, jobId, LogEntry(message, level, timestamp));
      return Success;
    }
    return JobNotFound;
  }
}
