/**
 * GET /api/job/pending: `Object.values(jobs).find(job => job.status === 'PENDING')`.
 * The table's keys are positive integer ids, which `Object.values` visits in
 * ascending order, so the search returns the PENDING job with the smallest id.
 * It only reads the table: polling is a peek, not a claim.
 */
module PendingRoute {
  import opened Wrappers
  import opened Jobs

  /** Every record is stored under its own id. */
  ghost predicate IdsMatch(jobs: map<int, Job>) {
    forall id :: id in jobs ==> jobs[id].id == id
  }

  /** `Object.values(jobs)` restricted to the keys 1..n: the records in ascending id order. */
  function ObjectValues(jobs: map<int, Job>, n: nat): (vs: seq<Job>)
    requires IdsMatch(jobs)
    ensures forall i :: 0 <= i < |vs| ==> 1 <= vs[i].id <= n && vs[i].id in jobs && jobs[vs[i].id] == vs[i]
    ensures forall id :: id in jobs && 1 <= id <= n ==> jobs[id] in vs
    ensures forall i, j :: 0 <= i < j < |vs| ==> vs[i].id < vs[j].id
  {
    if n == 0 then []
    else
      var front := ObjectValues(jobs, n - 1);
      if n in jobs then
        assert forall id :: id in jobs && 1 <= id <= n ==> jobs[id] in front + [jobs[n]] by {
          forall id | id in jobs && 1 <= id <= n ensures jobs[id] in front + [jobs[n]] {
            if id < n {
              assert jobs[id] in front;
            } else {
              assert (front + [jobs[n]])[|front|] == jobs[id];
            }
          }
        }
        front + [jobs[n]]
      else
        front
  }

  /** `find` with the PENDING test: the first PENDING record of `vs`. */
  function FindPending(vs: seq<Job>): (r: Option<Job>)
    ensures r.None? <==> forall i :: 0 <= i < |vs| ==> vs[i].status != Pending
    ensures r.Some? ==> exists i :: 0 <= i < |vs| && vs[i] == r.value && vs[i].status == Pending &&
                                    forall j :: 0 <= j < i ==> vs[j].status != Pending
  {
    if vs == [] then None
    else if vs[0].status == Pending then Some(vs[0])
    else
      var r := FindPending(vs[1..]);
      assert r.Some? ==> exists i :: 1 <= i < |vs| && vs[i] == r.value && vs[i].status == Pending &&
                                     forall j :: 0 <= j < i ==> vs[j].status != Pending
      by {
        if r.Some? {
          var i :| 0 <= i < |vs[1..]| && vs[1..][i] == r.value && vs[1..][i].status == Pending &&
                   forall j :: 0 <= j < i ==> vs[1..][j].status != Pending;
          assert vs[i + 1] == r.value;
          assert forall j :: 1 <= j < i + 1 ==> vs[j] == vs[1..][j - 1];
        }
      }
      r
  }

  /** In a sequence sorted by id, the record `find` returns is the PENDING record with the smallest id. */
  lemma FirstPendingSmallest(vs: seq<Job>)
    requires forall i, j :: 0 <= i < j < |vs| ==> vs[i].id < vs[j].id
    requires FindPending(vs).Some?
    ensures FindPending(vs).value in vs && FindPending(vs).value.status == Pending
    ensures forall j :: 0 <= j < |vs| && vs[j].id < FindPending(vs).value.id ==> vs[j].status != Pending
  {
    var r := FindPending(vs);
    var i :| 0 <= i < |vs| && vs[i] == r.value && vs[i].status == Pending &&
             forall j :: 0 <= j < i ==> vs[j].status != Pending;
    forall j | 0 <= j < |vs| && vs[j].id < r.value.id ensures vs[j].status != Pending {
      assert j < i;
    }
  }

  /** When the search finds a record, it is the PENDING job with the smallest id. */
  lemma SearchFound(jobs: map<int, Job>, lastJobId: nat)
    requires Keyed(jobs, lastJobId)
    ensures var r := FindPending(ObjectValues(jobs, lastJobId));
            r.Some? ==> && r.value.id in jobs && jobs[r.value.id] == r.value && r.value.status == Pending
                        && forall id :: id in jobs && id < r.value.id ==> jobs[id].status != Pending
  {
    var vs := ObjectValues(jobs, lastJobId);
    var r := FindPending(vs);
    if r.Some? {
      FirstPendingSmallest(vs);
      var i :| 0 <= i < |vs| && vs[i] == r.value;
      assert r.value.id in jobs && jobs[r.value.id] == r.value;
      forall id | id in jobs && id < r.value.id ensures jobs[id].status != Pending {
        assert jobs[id] in vs;
        var j :| 0 <= j < |vs| && vs[j] == jobs[id];
        assert vs[j].id == id;
      }
    }
  }

  /** The search finds nothing exactly when no job of the table is PENDING. */
  lemma SearchMisses(jobs: map<int, Job>, lastJobId: nat)
    requires Keyed(jobs, lastJobId)
    ensures FindPending(ObjectValues(jobs, lastJobId)).None? <==> forall id :: id in jobs ==> jobs[id].status != Pending
  {
    var vs := ObjectValues(jobs, lastJobId);
    assert forall id :: id in jobs ==> jobs[id] in vs;
    assert forall i :: 0 <= i < |vs| ==> vs[i].id in jobs && jobs[vs[i].id] == vs[i];
  }

  /**
   * The handler on the store's table and counter: the PENDING job with the
   * smallest id, or none when no job is PENDING.
   */
  function Get(jobs: map<int, Job>, lastJobId: nat): (r: Option<Job>)
    requires Keyed(jobs, lastJobId)
    ensures r.None? <==> forall id :: id in jobs ==> jobs[id].status != Pending
    ensures r.Some? ==> r.value.id in jobs && jobs[r.value.id] == r.value && r.value.status == Pending
    ensures r.Some? ==> forall id :: id in jobs && id < r.value.id ==> jobs[id].status != Pending
  {
    SearchFound(jobs, lastJobId);
    SearchMisses(jobs, lastJobId);
    FindPending(ObjectValues(jobs, lastJobId))
  }
}
