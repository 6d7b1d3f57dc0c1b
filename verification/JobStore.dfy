/**
 * The `jobs` table as an in-memory sequence of rows in insertion order, and
 * the ingestion loop of the search route: every scraped job is scored and
 * inserted unless a row with the same `(title, company)` already exists.
 */
module JobStore {
  import opened Wrappers
  import opened Records
  import Scoring

  /** The status a new row gets from the column default. */
  const InitialStatus: string := "found"

  /** The statuses the status route accepts. */
  const AllowedStatuses: seq<string> := ["found", "interested", "applied", "interview", "rejected", "offer"]

  predicate ValidStatus(status: string) {
    status in AllowedStatuses
  }

  /**
   * One row of the table. `requirements` is never written by ingestion and so
   * stays NULL; `createdAt` is an abstract, comparable timestamp.
   */
  datatype Row = Row(
    id: nat,
    title: string,
    company: string,
    location: string,
    salaryRange: string,
    jobUrl: string,
    description: string,
    requirements: Option<string>,
    sourcePlatform: string,
    matchScore: int,
    status: string,
    postedDate: string,
    createdAt: nat
  )

  /** The table and the next AUTOINCREMENT id. */
  datatype Store = Store(rows: seq<Row>, nextId: nat)

  const Empty: Store := Store([], 1)

  /** The table's uniqueness key `UNIQUE(title, company)`: exact, case-sensitive. */
  function Key(row: Row): (string, string) {
    (row.title, row.company)
  }

  function JobKey(job: Job): (string, string) {
    (job.title, job.company)
  }

  predicate HasKey(s: Store, key: (string, string)) {
    exists i :: 0 <= i < |s.rows| && Key(s.rows[i]) == key
  }

  predicate HasId(s: Store, id: nat) {
    exists i :: 0 <= i < |s.rows| && s.rows[i].id == id
  }

  /**
   * What the table guarantees: ids and keys are unique, ids are below the next
   * id, statuses are among the allowed ones and scores lie in [0, 100].
   */
  predicate Valid(s: Store) {
    && (forall i :: 0 <= i < |s.rows| ==>
          && s.rows[i].id < s.nextId
          && ValidStatus(s.rows[i].status)
          && 0 <= s.rows[i].matchScore <= Scoring.MaxScore)
    && (forall i, j :: 0 <= i < j < |s.rows| ==>
          s.rows[i].id != s.rows[j].id && Key(s.rows[i]) != Key(s.rows[j]))
  }

  /** The score ingestion stores for a job: its title and description against the built-in skills. */
  function ScoreOf(job: Job): int {
    Scoring.MatchScore(job.title, Some(job.description), [])
  }

  /** `row` is the row the INSERT writes for `job`: the job's fields, its score, status `found`, no requirements. */
  predicate InsertedFrom(row: Row, job: Job, stamp: nat) {
    && row.title == job.title && row.company == job.company && row.location == job.location
    && row.salaryRange == job.salaryRange && row.jobUrl == job.jobUrl
    && row.description == job.description && row.sourcePlatform == job.sourcePlatform
    && row.postedDate == job.postedDate
    && row.requirements == None
    && row.matchScore == ScoreOf(job)
    && row.status == InitialStatus
    && row.createdAt == stamp
  }

  datatype Insertion = Insertion(store: Store, inserted: bool)

  /** `INSERT OR IGNORE` of one job. */
  function InsertOrIgnore(s: Store, job: Job, stamp: nat): (r: Insertion)
    ensures r.inserted <==> !HasKey(s, JobKey(job))
    ensures !r.inserted ==> r.store == s
    ensures r.inserted ==>
              && |r.store.rows| == |s.rows| + 1
              && r.store.rows[..|s.rows|] == s.rows
              && InsertedFrom(r.store.rows[|s.rows|], job, stamp)
              && r.store.rows[|s.rows|].id == s.nextId
              && r.store.nextId == s.nextId + 1
    ensures HasKey(r.store, JobKey(job))
  {
    if HasKey(s, JobKey(job)) then Insertion(s, false)
    else
      var row := Row(
        id := s.nextId, title := job.title, company := job.company, location := job.location,
        salaryRange := job.salaryRange, jobUrl := job.jobUrl, description := job.description,
        requirements := None, sourcePlatform := job.sourcePlatform, matchScore := ScoreOf(job),
        status := InitialStatus, postedDate := job.postedDate, createdAt := stamp);
      var s' := Store(s.rows + [row], s.nextId + 1);
      assert Key(s'.rows[|s.rows|]) == JobKey(job);
      Insertion(s', true)
  }

  /** The table after inserting-or-ignoring every job of `batch` in order; all new rows share `stamp`. */
  function Ingested(s: Store, batch: seq<Job>, stamp: nat): (r: Store)
    decreases |batch|
    ensures |s.rows| <= |r.rows| <= |s.rows| + |batch|
  {
    if |batch| == 0 then s
    else InsertOrIgnore(Ingested(s, batch[..|batch| - 1], stamp), batch[|batch| - 1], stamp).store
  }

  /** An insert keeps the table's invariants: the new row has a fresh id, a fresh key, status 'found' and a score in range. */
  lemma InsertKeepsValid(s: Store, job: Job, stamp: nat)
    ensures Valid(s) ==> Valid(InsertOrIgnore(s, job, stamp).store)
  {
  }

  /** Ingestion keeps the table's invariants. */
  lemma {:induction false} IngestedKeepsValid(s: Store, batch: seq<Job>, stamp: nat)
    ensures Valid(s) ==> Valid(Ingested(s, batch, stamp))
    decreases |batch|
  {
    if |batch| > 0 {
      IngestedKeepsValid(s, batch[..|batch| - 1], stamp);
      InsertKeepsValid(Ingested(s, batch[..|batch| - 1], stamp), batch[|batch| - 1], stamp);
    }
  }

  /** Ingestion only appends: every row already in the table is kept as it was, score and status included. */
  lemma {:induction false} IngestedKeepsRows(s: Store, batch: seq<Job>, stamp: nat)
    ensures Ingested(s, batch, stamp).rows[..|s.rows|] == s.rows
    decreases |batch|
  {
    if |batch| > 0 {
      var init := batch[..|batch| - 1];
      IngestedKeepsRows(s, init, stamp);
      var mid := Ingested(s, init, stamp);
      var r := Ingested(s, batch, stamp);
      assert r.rows[..|mid.rows|] == mid.rows;
      assert r.rows[..|s.rows|] == mid.rows[..|s.rows|];
    }
  }

  /** `batch[j]` is the first job of the batch with its key. */
  predicate FirstOccurrence(batch: seq<Job>, j: nat)
    requires j < |batch|
  {
    forall k :: 0 <= k < j ==> JobKey(batch[k]) != JobKey(batch[j])
  }

  /** Rows already in the table keep their key; after ingestion every key of the batch is present. */
  lemma {:induction false} IngestedHasKeys(s: Store, batch: seq<Job>, stamp: nat)
    ensures forall key :: HasKey(s, key) ==> HasKey(Ingested(s, batch, stamp), key)
    ensures forall j :: 0 <= j < |batch| ==> HasKey(Ingested(s, batch, stamp), JobKey(batch[j]))
    decreases |batch|
  {
    var r := Ingested(s, batch, stamp);
    IngestedKeepsRows(s, batch, stamp);
    forall key | HasKey(s, key) ensures HasKey(r, key) {
      var i :| 0 <= i < |s.rows| && Key(s.rows[i]) == key;
      assert r.rows[i] == r.rows[..|s.rows|][i] == s.rows[i];
    }
    if |batch| > 0 {
      var init := batch[..|batch| - 1];
      IngestedHasKeys(s, init, stamp);
      var mid := Ingested(s, init, stamp);
      forall j | 0 <= j < |batch| ensures HasKey(r, JobKey(batch[j])) {
        if j < |batch| - 1 {
          assert init[j] == batch[j];
          var i :| 0 <= i < |mid.rows| && Key(mid.rows[i]) == JobKey(batch[j]);
          assert r.rows[..|mid.rows|] == mid.rows;
          assert r.rows[i] == mid.rows[i];
        }
      }
    }
  }

  /** A first occurrence in a prefix of the batch is a first occurrence in the batch. */
  lemma FirstOccurrenceExtends(batch: seq<Job>, n: nat, j: nat)
    requires j < n <= |batch|
    requires FirstOccurrence(batch[..n], j)
    ensures FirstOccurrence(batch, j)
  {
    forall k | 0 <= k < j ensures JobKey(batch[k]) != JobKey(batch[j]) {
      assert batch[..n][k] == batch[k];
    }
  }

  /** A job whose key is still absent after the jobs before it is the first of its key, and new to the table. */
  lemma FreshLastJob(s: Store, batch: seq<Job>, stamp: nat)
    requires |batch| > 0
    requires !HasKey(Ingested(s, batch[..|batch| - 1], stamp), JobKey(batch[|batch| - 1]))
    ensures FirstOccurrence(batch, |batch| - 1)
    ensures !HasKey(s, JobKey(batch[|batch| - 1]))
  {
    var last := |batch| - 1;
    var init := batch[..last];
    IngestedHasKeys(s, init, stamp);
    forall k | 0 <= k < last ensures JobKey(batch[k]) != JobKey(batch[last]) {
      assert init[k] == batch[k];
    }
  }

  /** `row` was added by ingesting `batch[j]`, the first job with its key, which the table lacked. */
  ghost predicate AddedBy(s: Store, batch: seq<Job>, stamp: nat, row: Row, j: nat) {
    && j < |batch| && FirstOccurrence(batch, j)
    && !HasKey(s, JobKey(batch[j]))
    && InsertedFrom(row, batch[j], stamp)
  }

  /**
   * Every row ingestion adds comes from the first job of the batch with that
   * key, and that key was absent from the table: insert-if-absent, first
   * occurrence wins.
   */
  lemma {:induction false} IngestedNewRow(s: Store, batch: seq<Job>, stamp: nat, i: nat)
    requires |s.rows| <= i < |Ingested(s, batch, stamp).rows|
    ensures exists j: nat :: AddedBy(s, batch, stamp, Ingested(s, batch, stamp).rows[i], j)
    decreases |batch|
  {
    var r := Ingested(s, batch, stamp);
    var last := |batch| - 1;
    var init := batch[..last];
    var mid := Ingested(s, init, stamp);
    var step := InsertOrIgnore(mid, batch[last], stamp);
    assert r == step.store;
    if i < |mid.rows| {
      IngestedNewRow(s, init, stamp, i);
      var j: nat :| AddedBy(s, init, stamp, mid.rows[i], j);
      assert r.rows[i] == r.rows[..|mid.rows|][i] == mid.rows[i];
      assert init[j] == batch[j];
      FirstOccurrenceExtends(batch, last, j);
      assert AddedBy(s, batch, stamp, r.rows[i], j);
    } else {
      FreshLastJob(s, batch, stamp);
      assert AddedBy(s, batch, stamp, r.rows[i], last);
    }
  }

  /** A batch whose every key is already stored changes nothing. */
  lemma {:induction false} IngestKnownIsNoOp(s: Store, batch: seq<Job>, stamp: nat)
    requires forall j :: 0 <= j < |batch| ==> HasKey(s, JobKey(batch[j]))
    ensures Ingested(s, batch, stamp) == s
    decreases |batch|
  {
    if |batch| > 0 {
      var init := batch[..|batch| - 1];
      assert forall j :: 0 <= j < |init| ==> init[j] == batch[j];
      IngestKnownIsNoOp(s, init, stamp);
    }
  }

  /** Re-ingesting the same batch, at any later time, leaves the table unchanged. */
  lemma IngestIdempotent(s: Store, batch: seq<Job>, stamp: nat, laterStamp: nat)
    ensures Ingested(Ingested(s, batch, stamp), batch, laterStamp) == Ingested(s, batch, stamp)
  {
    IngestedHasKeys(s, batch, stamp);
    IngestKnownIsNoOp(Ingested(s, batch, stamp), batch, laterStamp);
  }

  /** Ingesting one more job of the batch is one more insert-or-ignore. */
  lemma IngestedStep(s: Store, batch: seq<Job>, i: nat, stamp: nat)
    requires i < |batch|
    ensures Ingested(s, batch[..i + 1], stamp) == InsertOrIgnore(Ingested(s, batch[..i], stamp), batch[i], stamp).store
  {
    assert batch[..i + 1][..i] == batch[..i];
  }

  /** An insert-or-ignore adds one row when it inserts and none otherwise. */
  lemma InsertGrowth(s: Store, job: Job, stamp: nat)
    ensures |InsertOrIgnore(s, job, stamp).store.rows| == |s.rows| + if InsertOrIgnore(s, job, stamp).inserted then 1 else 0
  {
  }

  /**
   * The search route's `new_jobs` counter: after each job it goes up when the
   * connection's cumulative change count is positive, so every job from the
   * first actual insert on is counted, inserted or not.
   */
  function ReportedNewJobs(s: Store, batch: seq<Job>, stamp: nat): nat
    decreases |batch|
  {
    if |batch| == 0 then 0
    else
      ReportedNewJobs(s, batch[..|batch| - 1], stamp)
      + (if |Ingested(s, batch, stamp).rows| > |s.rows| then 1 else 0)
  }

  /** The first actual insert of the batch happens at job `k`. */
  ghost predicate FirstInsertAt(s: Store, batch: seq<Job>, k: nat, stamp: nat)
    requires k < |batch|
  {
    && |Ingested(s, batch[..k], stamp).rows| == |s.rows|
    && |Ingested(s, batch[..k + 1], stamp).rows| == |s.rows| + 1
  }

  /** One more job adds one to the counter exactly when the table has grown by then. */
  lemma ReportedStep(s: Store, batch: seq<Job>, i: nat, stamp: nat)
    requires i < |batch|
    ensures ReportedNewJobs(s, batch[..i + 1], stamp)
            == ReportedNewJobs(s, batch[..i], stamp)
               + (if |Ingested(s, batch[..i + 1], stamp).rows| > |s.rows| then 1 else 0)
  {
    assert batch[..i + 1][..i] == batch[..i];
  }

  /**
   * What the counter reports: zero exactly when nothing was inserted, and
   * never fewer than the rows inserted nor more than the jobs scraped.
   */
  lemma {:induction false} ReportedNewJobsBounds(s: Store, batch: seq<Job>, stamp: nat)
    ensures ReportedNewJobs(s, batch, stamp) == 0 <==> |Ingested(s, batch, stamp).rows| == |s.rows|
    ensures |Ingested(s, batch, stamp).rows| - |s.rows| <= ReportedNewJobs(s, batch, stamp) <= |batch|
    decreases |batch|
  {
    if |batch| > 0 {
      var init := batch[..|batch| - 1];
      ReportedNewJobsBounds(s, init, stamp);
      IngestedLastStep(s, batch, stamp);
      var grown := |Ingested(s, batch, stamp).rows| > |s.rows|;
      assert ReportedNewJobs(s, batch, stamp) == ReportedNewJobs(s, init, stamp) + (if grown then 1 else 0);
    }
  }

  /** Ingesting one more job adds at most one row. */
  lemma IngestedLastStep(s: Store, batch: seq<Job>, stamp: nat)
    requires |batch| > 0
    ensures var before := |Ingested(s, batch[..|batch| - 1], stamp).rows|;
            before <= |Ingested(s, batch, stamp).rows| <= before + 1
  {
  }

  /** The first insert of a prefix of the batch is the first insert of the batch. */
  lemma FirstInsertAtExtends(s: Store, batch: seq<Job>, k: nat, stamp: nat)
    requires 0 < |batch| && k < |batch| - 1
    requires FirstInsertAt(s, batch[..|batch| - 1], k, stamp)
    ensures FirstInsertAt(s, batch, k, stamp)
  {
    var init := batch[..|batch| - 1];
    assert init[..k] == batch[..k] && init[..k + 1] == batch[..k + 1];
  }

  /**
   * A positive count is the number of jobs from the first actual insert to
   * the end of the batch, whether or not those later jobs were inserted.
   */
  lemma {:induction false} ReportedNewJobsFromFirstInsert(s: Store, batch: seq<Job>, stamp: nat)
    requires ReportedNewJobs(s, batch, stamp) > 0
    ensures exists k: nat :: k < |batch| && ReportedNewJobs(s, batch, stamp) == |batch| - k
                             && FirstInsertAt(s, batch, k, stamp)
    decreases |batch|
  {
    var last := |batch| - 1;
    var init := batch[..last];
    ReportedNewJobsBounds(s, init, stamp);
    IngestedLastStep(s, batch, stamp);
    if ReportedNewJobs(s, init, stamp) > 0 {
      ReportedNewJobsFromFirstInsert(s, init, stamp);
      var k: nat :| k < |init| && ReportedNewJobs(s, init, stamp) == |init| - k && FirstInsertAt(s, init, k, stamp);
      FirstInsertAtExtends(s, batch, k, stamp);
    } else {
      assert batch[..last + 1] == batch;
      assert FirstInsertAt(s, batch, last, stamp);
    }
  }

  /** The ingestion loop of the search route, with its `new_jobs` counter as written. */
  method IngestBatch(s: Store, batch: seq<Job>, stamp: nat) returns (r: Store, newJobs: nat)
    ensures r == Ingested(s, batch, stamp)
    ensures newJobs == ReportedNewJobs(s, batch, stamp)
  {
    r := s;
    newJobs := 0;
    var totalChanges := 0;
    var i := 0;
    while i < |batch|
      invariant 0 <= i <= |batch|
      invariant r == Ingested(s, batch[..i], stamp)
      invariant totalChanges == |r.rows| - |s.rows|
      invariant newJobs == ReportedNewJobs(s, batch[..i], stamp)
    {
      var step := InsertOrIgnore(r, batch[i], stamp);
      LoopStep(s, batch, i, stamp);
      if step.inserted {
        totalChanges := totalChanges + 1;
      }
      r := step.store;
      assert totalChanges == |r.rows| - |s.rows|;
      if totalChanges > 0 {
        newJobs := newJobs + 1;
      }
      i := i + 1;
    }
    assert batch[..|batch|] == batch;
  }

  /** What one pass of the ingestion loop does to the table, its size and the counter. */
  lemma LoopStep(s: Store, batch: seq<Job>, i: nat, stamp: nat)
    requires i < |batch|
    ensures var before := Ingested(s, batch[..i], stamp);
            var step := InsertOrIgnore(before, batch[i], stamp);
            && step.store == Ingested(s, batch[..i + 1], stamp)
            && |step.store.rows| == |before.rows| + (if step.inserted then 1 else 0)
            && ReportedNewJobs(s, batch[..i + 1], stamp)
               == ReportedNewJobs(s, batch[..i], stamp) + (if |step.store.rows| > |s.rows| then 1 else 0)
  {
    IngestedStep(s, batch, i, stamp);
    InsertGrowth(Ingested(s, batch[..i], stamp), batch[i], stamp);
    ReportedStep(s, batch, i, stamp);
  }

  /**
   * The ingestion loop with `new_jobs` counting the rows actually inserted,
   * which is what the route's message "N new" describes.
   */
  method IngestBatchCounted(s: Store, batch: seq<Job>, stamp: nat) returns (r: Store, newJobs: nat)
    ensures r == Ingested(s, batch, stamp)
    ensures newJobs == |r.rows| - |s.rows|
  {
    r := s;
    newJobs := 0;
    var i := 0;
    while i < |batch|
      invariant 0 <= i <= |batch|
      invariant r == Ingested(s, batch[..i], stamp)
      invariant newJobs == |r.rows| - |s.rows|
    {
      var step := InsertOrIgnore(r, batch[i], stamp);
      IngestedStep(s, batch, i, stamp);
      InsertGrowth(r, batch[i], stamp);
      if step.inserted {
        newJobs := newJobs + 1;
      }
      r := step.store;
      i := i + 1;
    }
    assert batch[..|batch|] == batch;
  }

  /**
   * The counter as written over-reports: a job scraped twice in one batch is
   * stored once but counted twice.
   */
  lemma ReportedNewJobsOvercounts(job: Job, stamp: nat)
    ensures |Ingested(Empty, [job, job], stamp).rows| == 1
    ensures ReportedNewJobs(Empty, [job, job], stamp) == 2
  {
    var batch := [job, job];
    IngestedStep(Empty, batch, 0, stamp);
    IngestedStep(Empty, batch, 1, stamp);
    assert batch[..0] == [] && batch[..2] == batch;
    var once := InsertOrIgnore(Empty, job, stamp).store;
    assert |once.rows| == 1;
    assert InsertOrIgnore(once, job, stamp).store == once;
    ReportedStep(Empty, batch, 0, stamp);
    ReportedStep(Empty, batch, 1, stamp);
  }
}
