/**
 * How the operations meet on the shared table: what a worker's poll sees
 * after a submission, after a log line and after it marks the job RUNNING.
 */
module Protocol {
  import opened Wrappers
  import opened Jobs
  import LogRoute
  import PendingRoute
  import Page

  /** The poll result is pinned down by its contract: the PENDING job with no PENDING job below it. */
  lemma GetIs(jobs: map<int, Job>, lastJobId: nat, id: int)
    requires Keyed(jobs, lastJobId)
    requires id in jobs && jobs[id].status == Pending
    requires forall k :: k in jobs && k < id ==> jobs[k].status != Pending
    ensures PendingRoute.Get(jobs, lastJobId) == Some(jobs[id])
  {
    var r := PendingRoute.Get(jobs, lastJobId);
    assert r.Some?;
    assert !(r.value.id < id);
    assert !(id < r.value.id);
  }

  /** Inserting the next id keeps the table keyed, and leaves every older record where it was. */
  lemma InsertNext(jobs: map<int, Job>, lastJobId: nat, job: Job)
    requires Keyed(jobs, lastJobId) && job.id == lastJobId + 1
    ensures Keyed(jobs[job.id := job], job.id)
    ensures forall k :: k in jobs[job.id := job] && k < job.id ==> k in jobs && jobs[job.id := job][k] == jobs[k]
    ensures forall k :: k in jobs ==> k < job.id && jobs[job.id := job][k] == jobs[k]
  {
  }

  /**
   * A new submission does not jump the queue: if some job was already
   * PENDING the poll still returns it, otherwise it returns the new job.
   */
  lemma {:induction false} PollAfterCreate(jobs: map<int, Job>, lastJobId: nat, job: Job)
    requires Keyed(jobs, lastJobId)
    requires job.id == lastJobId + 1 && job.status == Pending
    ensures Keyed(jobs[job.id := job], job.id)
    ensures PendingRoute.Get(jobs[job.id := job], job.id) ==
            (if PendingRoute.Get(jobs, lastJobId).Some? then PendingRoute.Get(jobs, lastJobId) else Some(job))
  {
    InsertNext(jobs, lastJobId, job);
    var jobs' := jobs[job.id := job];
    var before := PendingRoute.Get(jobs, lastJobId);
    if before.Some? {
      var b := before.value;
      assert b.id in jobs && jobs'[b.id] == b;
      GetIs(jobs', job.id, b.id);
    } else {
      GetIs(jobs', job.id, job.id);
    }
  }

  /** Logging does not claim: after any log line the poll returns the same job id as before. */
  lemma {:induction false} PollIgnoresLog(jobs: map<int, Job>, lastJobId: nat, id: int, entry: LogEntry)
    requires Keyed(jobs, lastJobId) && id in jobs
    ensures Keyed(jobs[id := LogRoute.WithEntry(jobs[id], entry)], lastJobId)
    ensures var before := PendingRoute.Get(jobs, lastJobId);
            var after := PendingRoute.Get(jobs[id := LogRoute.WithEntry(jobs[id], entry)], lastJobId);
            before.None? == after.None? && (before.Some? ==> after.value.id == before.value.id)
  {
    var logged := LogRoute.WithEntry(jobs[id], entry);
    var jobs' := jobs[id := logged];
    assert logged.id == jobs[id].id && logged.status == jobs[id].status by {
      assert logged.(log := jobs[id].log, postsCompleted := jobs[id].postsCompleted, totalPosts := jobs[id].totalPosts) == jobs[id];
    }
    assert forall k :: k in jobs' ==> jobs'[k].status == jobs[k].status;
    assert Keyed(jobs', lastJobId);
    var before := PendingRoute.Get(jobs, lastJobId);
    if before.Some? {
      GetIs(jobs', lastJobId, before.value.id);
    }
  }

  /**
   * The claim is the status update: once the worker marks the polled job
   * RUNNING, the next poll returns a later job or none.
   */
  lemma {:induction false} PollAfterClaim(jobs: map<int, Job>, lastJobId: nat, summary: Option<string>, file: Option<string>)
    requires Keyed(jobs, lastJobId) && PendingRoute.Get(jobs, lastJobId).Some?
    ensures var claimed := PendingRoute.Get(jobs, lastJobId).value;
            var jobs' := jobs[claimed.id := Page.Updated(claimed, Some(Running), summary, file)];
            Keyed(jobs', lastJobId) &&
            (PendingRoute.Get(jobs', lastJobId).None? || PendingRoute.Get(jobs', lastJobId).value.id > claimed.id)
  {
    var claimed := PendingRoute.Get(jobs, lastJobId).value;
    var jobs' := jobs[claimed.id := Page.Updated(claimed, Some(Running), summary, file)];
    assert Keyed(jobs', lastJobId);
    var after := PendingRoute.Get(jobs', lastJobId);
    if after.Some? {
      assert after.value.id != claimed.id;
      assert !(after.value.id < claimed.id) by {
        assert after.value.id in jobs && jobs[after.value.id].status == Pending;
      }
    }
  }
}
