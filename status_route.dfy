/**
 * POST /api/job/status/[jobid], only its output-file line. It writes
 * `data.updatedFileBase64 || data.updatedFileBase64`: both operands are the
 * supplied value, so a status update that carries no file erases an output
 * file stored earlier. The in-page update (`Page.Updated`) keeps it.
 */
module StatusRoute {
  import opened Wrappers
  import opened Jobs
  import Page

  /** The line as written: whatever is supplied replaces the stored value, truthy or not. */
  function FileFieldAsWritten(supplied: Option<string>, current: Option<string>): (r: Option<string>)
    ensures r == supplied
  {
    // the right operand is `supplied` again where `current` was evidently meant
    if Page.Truthy(supplied) then supplied else supplied
  }

  /**
   * A worker uploads the output with its COMPLETED update, then sends a second
   * update with only a summary: the route as written drops the output, the
   * corrected rule keeps it.
   */
  lemma SummaryOnlyUpdateErasesOutput()
    ensures var done := Job(1, "file-1", "posts.xlsx", 5, Completed, [], "All posts done.", Some("UEsDBBQ"), 3, 3);
            && FileFieldAsWritten(None, done.updatedFileBase64) == None
            && Page.Updated(done, None, Some("Finished with 3 posts."), None).updatedFileBase64 == Some("UEsDBBQ")
  {
  }

  /** The corrected rule never loses a stored output to an update that brings none. */
  lemma CorrectedKeepsOutput(job: Job, status: Option<Status>, summary: Option<string>, file: Option<string>)
    requires !Page.Truthy(file)
    ensures Page.Updated(job, status, summary, file).updatedFileBase64 == job.updatedFileBase64
  {
  }
}
