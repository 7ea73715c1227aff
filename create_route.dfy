/** POST /api/job/create: allocate an id, store the file, insert a PENDING job. */
module CreateRoute {
  import opened Wrappers
  import opened Numbers
  import opened Jobs

  const AwaitingSummary: string := "Awaiting worker execution."

  const ConnectNote: string := "created. Waiting for local worker to connect..."

  /** The seed log line of job `id`. */
  function CreatedMessage(id: nat): string {
    "Job " + Decimal(id) + " " + ConnectNote
  }

  /** The seed line tells jobs apart: different ids give different messages. */
  lemma CreatedMessageNamesJob(m: nat, n: nat)
    ensures CreatedMessage(m) == CreatedMessage(n) ==> m == n
  {
    if CreatedMessage(m) == CreatedMessage(n) {
      var a, b := Decimal(m), Decimal(n);
      var s := CreatedMessage(m);
      assert s == "Job " + a + " " + ConnectNote == "Job " + b + " " + ConnectNote;
      assert s[4..4 + |a|] == a && s[4 + |a|] == ' ';
      assert s[4..4 + |b|] == b && s[4 + |b|] == ' ';
      RunOf(s, 4, a);
      RunOf(s, 4, b);
      DecimalInjective(m, n);
    }
  }

  /**
   * The handler. `timestamp` stands for the server clock's ISO string. The
   * returned record is the one stored under the new id.
   */
  method Post(store: JobStore, fileId: string, fileName: string, delay: int, fileContent: string, timestamp: string)
    returns (job: Job)
    requires store.Valid()
    modifies store
    ensures store.Valid()
    ensures store.lastJobId == old(store.lastJobId) + 1 && job.id == store.lastJobId
    ensures job.id !in old(store.jobs)
    ensures store.jobs == old(store.jobs)[job.id := job]
    ensures store.fileStorage == old(store.fileStorage)[fileId := fileContent]
    ensures job.fileId == fileId && job.fileName == fileName && job.delay == delay
    ensures job.status == Pending && job.summary == AwaitingSummary && job.updatedFileBase64 == None
    ensures job.totalPosts == 0 && job.postsCompleted == 0
    ensures job.log == [LogEntry(CreatedMessage(job.id), "info", timestamp)]
  {
    store.lastJobId := store.lastJobId + 1;
    var jobId := store.lastJobId;
    store.fileStorage := store.fileStorage[fileId := fileContent];
    job := Job(jobId, fileId, fileName, delay, Pending,
               [LogEntry(CreatedMessage(jobId), "info", timestamp)],
               AwaitingSummary, None, 0, 0);
    store.jobs := store.jobs[jobId := job];
  }

  /** Two submissions, even of the same file, get two distinct, consecutive, fresh ids. */
  method SubmitTwice(store: JobStore, fileId: string, fileName: string, delay: int, fileContent: string, timestamp: string)
    returns (first: Job, second: Job)
    requires store.Valid()
    modifies store
    ensures store.Valid()
    ensures first.id == old(store.lastJobId) + 1
    ensures first.id < second.id && second.id == first.id + 1 == store.lastJobId
    ensures store.fileStorage == old(store.fileStorage)[fileId := fileContent]
    ensures first.id !in old(store.jobs) && second.id !in old(store.jobs)
    ensures store.jobs == old(store.jobs)[first.id := first][second.id := second]
    ensures CreatedMessage(first.id) != CreatedMessage(second.id)
  {
    first := Post(store, fileId, fileName, delay, fileContent, timestamp);
    second := Post(store, fileId, fileName, delay, fileContent, timestamp);
    CreatedMessageNamesJob(first.id, second.id);
  }
}
