/**
 * The store-facing helpers of the front page: the in-page status update and
 * log stream (both always resolve `{success: true}`), the progress
 * percentage and the status label. The in-page pending search computes the
 * same expression as the pending route and is modelled by `PendingRoute.Get`.
 */
module Page {
  import opened Wrappers
  import opened Jobs
  import LogRoute

  /** JavaScript truthiness of an optional string: `null`, `undefined` and `""` are the falsy ones. */
  function Truthy(v: Option<string>): (r: bool)
    ensures !r <==> v == None || v == Some("")
  {
    v.Some? && v.value != ""
  }

  /**
   * The record after a status update: `data.x || job.x` for status, summary
   * and output file. A status value is a non-empty name, so any supplied one
   * wins; there is no check of which status may follow which.
   */
  function Updated(job: Job, status: Option<Status>, summary: Option<string>, file: Option<string>): (r: Job)
    ensures status.Some? ==> r.status == status.value
    ensures status.None? ==> r.status == job.status
    ensures Truthy(summary) ==> r.summary == summary.value
    ensures !Truthy(summary) ==> r.summary == job.summary
    ensures Truthy(file) ==> r.updatedFileBase64 == file
    ensures !Truthy(file) ==> r.updatedFileBase64 == job.updatedFileBase64
    ensures r.(status := job.status, summary := job.summary, updatedFileBase64 := job.updatedFileBase64) == job
  {
    var status' := match status case Some(s) => s case None => job.status;
    var summary' := if Truthy(summary) then summary.value else job.summary;
    var file' := if Truthy(file) then file else job.updatedFileBase64;
    job.(status := status', summary := summary', updatedFileBase64 := file')
  }

  /** `simulateUpdateJobStatus`: an unknown id changes nothing and still reports success. */
  method UpdateJobStatus(store: JobStore, jobId: int, status: Option<Status>, summary: Option<string>, file: Option<string>)
    returns (success: bool)
    requires store.Valid()
    modifies store
    ensures store.Valid()
    ensures success
    ensures jobId in old(store.jobs) ==>
              store.jobs == old(store.jobs)[jobId := Updated(old(store.jobs)[jobId], status, summary, file)]
    ensures jobId !in old(store.jobs) ==> store.jobs == old(store.jobs)
    ensures store.lastJobId == old(store.lastJobId) && store.fileStorage == old(store.fileStorage)
  {
    if jobId in store.jobs {
      var job := store.jobs[jobId];
      if status.Some? {
        job := job.(status := status.value);
      }
      if Truthy(summary) {
        job := job.(summary := summary.value);
      }
      if Truthy(file) {
        job := job.(updatedFileBase64 := file);
      }
      store.jobs := store.jobs[jobId := job];
    }
    success := true;
  }

  /** `simulateStreamLog`: the log route's state change, but an unknown id is ignored and still reports success. */
  method StreamLog(store: JobStore, jobId: int, message: string, level: string, timestamp: string)
    returns (success: bool)
    requires store.Valid()
    modifies store
    ensures store.Valid()
    ensures success
    ensures jobId in old(store.jobs) ==>
              store.jobs == old(store.jobs)[jobId := LogRoute.WithEntry(old(store.jobs)[jobId], LogEntry(message, level, timestamp))]
    ensures jobId !in old(store.jobs) ==> store.jobs == old(store.jobs)
    ensures store.lastJobId == old(store.lastJobId) && store.fileStorage == old(store.fileStorage)
  {
    if jobId in store.jobs {
      LogRoute.Push(store, jobId, LogEntry(message, level, timestamp));
    }
    success := true;
  }

  /**
   * `progressPercentage`: 0 without a current job or with no total yet,
   * otherwise 100 * completed / total rounded half up, as `Math.round` does.
   */
  function ProgressPercentage(current: Option<Job>): (r: nat)
    ensures current.None? || current.value.totalPosts == 0 ==> r == 0
    ensures current.Some? && current.value.totalPosts > 0 ==>
              var c, t := current.value.postsCompleted, current.value.totalPosts;
              2 * t * r <= 200 * c + t < 2 * t * (r + 1)
  {
    if current.None? || current.value.totalPosts == 0 then 0
    else
      var c, t := current.value.postsCompleted, current.value.totalPosts;
      var r := (200 * c + t) / (2 * t);
      assert 2 * t * r <= 200 * c + t < 2 * t * (r + 1) by {
        DivBounds(200 * c + t, 2 * t);
      }
      r
  }

  lemma DivBounds(a: nat, b: nat)
    requires b > 0
    ensures b * (a / b) <= a < b * (a / b + 1)
  {
  }

  /** Cancelling a positive factor keeps a strict inequality. */
  lemma CancelLess(k: int, a: int, b: int)
    requires k > 0 && k * a < k * b
    ensures a < b
  {
    assert k * b - k * a == k * (b - a);
  }

  /** While the worker reports no more completed posts than the total, the bar stays within 0..100, and is full exactly when all are done. */
  lemma ProgressWithinBar(job: Job)
    requires job.postsCompleted <= job.totalPosts
    ensures ProgressPercentage(Some(job)) <= 100
    ensures job.totalPosts > 0 && job.postsCompleted == job.totalPosts ==> ProgressPercentage(Some(job)) == 100
  {
    var r := ProgressPercentage(Some(job));
    var c, t := job.postsCompleted, job.totalPosts;
    if t > 0 {
      var k := 2 * t;
      assert k * r <= 200 * c + t < k * (r + 1);
      assert 200 * c + t < k * 101;
      CancelLess(k, r, 101);
      if c == t {
        assert k * 100 < k * (r + 1);
        CancelLess(k, 100, r + 1);
      }
    }
  }

  function LowerChar(c: char): char {
    if 'A' <= c <= 'Z' then ((c as int) + 32) as char else c
  }

  /** `toLowerCase` on ASCII text. */
  function ToLower(s: string): (r: string)
    ensures |r| == |s| && forall i :: 0 <= i < |s| ==> r[i] == LowerChar(s[i])
  {
    if s == [] then [] else [LowerChar(s[0])] + ToLower(s[1..])
  }

  /** `statusText`: the first letter of the status name kept, the rest lower-cased. */
  function StatusText(status: Status): (r: string)
    ensures |r| == |StatusName(status)|
    ensures |r| > 0 ==> r[0] == StatusName(status)[0]
    ensures forall i :: 1 <= i < |r| ==> r[i] == LowerChar(StatusName(status)[i])
  {
    var name := StatusName(status);
    if name == [] then [] else [name[0]] + ToLower(name[1..])
  }

  lemma StatusTextExamples()
    ensures StatusText(Pending) == "Pending" && StatusText(Running) == "Running"
    ensures StatusText(Completed) == "Completed" && StatusText(Failed) == "Failed"
  {
    PendingText();
    RunningText();
    CompletedText();
    FailedText();
  }

  /** Lower-casing a run of capital letters gives the letters 32 code points on. */
  lemma LowerCapitals(s: string, r: string)
    requires |r| == |s|
    requires forall i :: 0 <= i < |s| ==> 'A' <= s[i] <= 'Z' && r[i] as int == s[i] as int + 32
    ensures ToLower(s) == r
  {
    var l := ToLower(s);
    assert forall i :: 0 <= i < |s| ==> l[i] == r[i];
  }

  lemma PendingText() ensures StatusText(Pending) == "Pending" {
    assert StatusName(Pending)[1..] == "ENDING";
    LowerCapitals("ENDING", "ending");
  }

  lemma RunningText() ensures StatusText(Running) == "Running" {
    assert StatusName(Running)[1..] == "UNNING";
    LowerCapitals("UNNING", "unning");
  }

  lemma CompletedText() ensures StatusText(Completed) == "Completed" {
    assert StatusName(Completed)[1..] == "OMPLETED";
    LowerCapitals("OMPLETED", "ompleted");
  }

  lemma FailedText() ensures StatusText(Failed) == "Failed" {
    assert StatusName(Failed)[1..] == "AILED";
    LowerCapitals("AILED", "ailed");
  }
}
