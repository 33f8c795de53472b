/** Argument handling of `babs-submit` and `babs-status` (babs/cli.py):
    the job count, the `--job` / `--resubmit-job` lists, the resubmit
    conditions, and the sanity check of requested jobs against the job
    status ledger. */
module Cli {
  import opened Wrappers
  import opened Text
  import opened Types
  import opened Seqs

  // ---------------------------------------------------------------------------
  // `--count`, `--all` and `--job` of babs-submit

  /** The number of jobs to submit; -1 stands for all remaining jobs. */
  function SubmitCount(all: bool, count: Option<int>, jobGiven: bool): (r: Result<int, Error>)
    ensures r.Err? <==> !all && count == Some(0)
    ensures r.Err? ==> r.error == CountZero
    ensures r.Ok? && (all || jobGiven) ==> r.value == -1
    ensures r.Ok? && !all && !jobGiven ==> r.value == (if count.Some? then count.value else 1)
    ensures r.Ok? ==> r.value != 0
  {
    var c := if all then -1 else if count.None? then 1 else count.value;
    if c == 0 then Err(CountZero)
    else if jobGiven then Ok(-1)
    else Ok(c)
  }

  // ---------------------------------------------------------------------------
  // `--job` and `--resubmit-job` argument lists

  function ExpectedArgCount(st: SessionType): nat {
    match st
    case SingleSes => 1
    case MultiSes => 2
  }

  /** One requested job on the command line: a `sub-*` and, in multi-session
      projects, a `ses-*`. */
  predicate ArgWellFormed(a: seq<string>, st: SessionType) {
    |a| == ExpectedArgCount(st) && StartsWith(a[0], "sub-") &&
    (st == MultiSes ==> StartsWith(a[1], "ses-"))
  }

  /** The failed assertion for a malformed argument list, checked in the
      source's order: the count, then the subject, then the session. */
  function ArgError(a: seq<string>, st: SessionType, index: nat): Error
    requires !ArgWellFormed(a, st)
  {
    if |a| != ExpectedArgCount(st) then JobArgCount(index)
    else if !StartsWith(a[0], "sub-") then JobSubFormat(index)
    else JobSesFormat(index)
  }

  function JobOfArgs(a: seq<string>, st: SessionType): Job
    requires ArgWellFormed(a, st)
  {
    Job(a[0], if st == MultiSes then Some(a[1]) else None)
  }

  /** How a job is written on the command line. */
  function ArgsOfJob(j: Job): seq<string> {
    [j.sub] + if j.ses.Some? then [j.ses.value] else []
  }

  /** A job whose shape matches the session type reads back as itself. */
  lemma ArgsRoundTrip(j: Job, st: SessionType)
    requires ArgWellFormed(ArgsOfJob(j), st)
    ensures JobOfArgs(ArgsOfJob(j), st) == j
  {
  }

  /** The argument lists from index `i` on, checked one after the other and
      turned into job rows. */
  function CheckJobArgsFrom(job: seq<seq<string>>, st: SessionType, i: nat): (r: Result<seq<Job>, Error>)
    requires i <= |job|
    ensures r.Ok? <==> forall k :: i <= k < |job| ==> ArgWellFormed(job[k], st)
    ensures r.Ok? ==> |r.value| == |job| - i
    ensures r.Ok? ==> forall k :: 0 <= k < |r.value| ==>
      ArgsOfJob(r.value[k]) == job[i + k] && StartsWith(r.value[k].sub, "sub-") &&
      (r.value[k].ses.Some? <==> st == MultiSes)
    ensures r.Err? ==> exists k :: (i <= k < |job| && !ArgWellFormed(job[k], st) &&
      (forall k' :: i <= k' < k ==> ArgWellFormed(job[k'], st)) && r.error == ArgError(job[k], st, k))
    decreases |job| - i
  {
    if i == |job| then Ok([])
    else if !ArgWellFormed(job[i], st) then Err(ArgError(job[i], st, i))
    else
      var rest :- CheckJobArgsFrom(job, st, i + 1);
      var j := JobOfArgs(job[i], st);
      assert ArgsOfJob(j) == job[i];
      Ok([j] + rest)
  }

  /** The assertions on `--job` (babs-submit) and `--resubmit-job`
      (babs-status), and the table of requested jobs built from them. */
  function CheckJobArgs(job: seq<seq<string>>, st: SessionType): (r: Result<seq<Job>, Error>)
    ensures r.Ok? <==> forall k :: 0 <= k < |job| ==> ArgWellFormed(job[k], st)
    ensures r.Ok? ==> |r.value| == |job| && forall k :: 0 <= k < |job| ==> ArgsOfJob(r.value[k]) == job[k]
    ensures r.Err? ==> exists k :: (0 <= k < |job| && !ArgWellFormed(job[k], st) &&
      (forall k' :: 0 <= k' < k ==> ArgWellFormed(job[k'], st)) && r.error == ArgError(job[k], st, k))
  {
    CheckJobArgsFrom(job, st, 0)
  }

  // ---------------------------------------------------------------------------
  // `--resubmit` of babs-status

  /** The first elements of the non-empty argument lists from index `i` on. */
  function FirstElements(lists: seq<seq<string>>, i: nat): set<string> {
    set k | i <= k < |lists| && |lists[k]| > 0 :: lists[k][0]
  }

  lemma FirstElementsStep(lists: seq<seq<string>>, i: nat)
    requires i < |lists| && |lists[i]| > 0
    ensures FirstElements(lists, i) == {lists[i][0]} + FirstElements(lists, i + 1)
  {
    var s := FirstElements(lists, i);
    var t := FirstElements(lists, i + 1);
    forall x | x in s ensures x in {lists[i][0]} + t {
      var k :| i <= k < |lists| && |lists[k]| > 0 && lists[k][0] == x;
      if k > i {
        assert x in t;
      }
    }
  }

  /** The first element of each `--resubmit` argument list from index `i`
      on, as a set: the order of `list(set(...))` is not specified. */
  function ResubmitFlagsFrom(resubmit: seq<seq<string>>, i: nat): (r: Result<set<string>, Error>)
    requires i <= |resubmit|
    ensures r.Ok? <==> forall k :: i <= k < |resubmit| ==> |resubmit[k]| > 0
    ensures r.Ok? ==> r.value == FirstElements(resubmit, i)
    ensures r.Err? ==> r.error.EmptyResubmitFlag? && i <= r.error.index < |resubmit|
    ensures r.Err? ==> |resubmit[r.error.index]| == 0
    ensures r.Err? ==> forall k :: i <= k < r.error.index ==> |resubmit[k]| > 0
    decreases |resubmit| - i
  {
    if i == |resubmit| then Ok({})
    else if |resubmit[i]| == 0 then Err(EmptyResubmitFlag(i))
    else
      match ResubmitFlagsFrom(resubmit, i + 1)
      case Err(e) => Err(e)
      case Ok(rest) =>
        FirstElementsStep(resubmit, i);
        Ok({resubmit[i][0]} + rest)
  }

  /** The resubmit conditions; none when `--resubmit` is absent. */
  function ResubmitFlags(resubmit: Option<seq<seq<string>>>): (r: Result<set<string>, Error>)
    ensures resubmit.None? ==> r == Ok({})
    ensures resubmit.Some? && r.Ok? ==> forall flag :: flag in r.value <==>
      exists k :: 0 <= k < |resubmit.value| && |resubmit.value[k]| > 0 && resubmit.value[k][0] == flag
    ensures resubmit.Some? ==> (r.Ok? <==> forall k :: 0 <= k < |resubmit.value| ==> |resubmit.value[k]| > 0)
    ensures r.Err? ==> resubmit.Some? && r.error.EmptyResubmitFlag? && r.error.index < |resubmit.value|
    ensures r.Err? ==> |resubmit.value[r.error.index]| == 0
  {
    match resubmit
    case None => Ok({})
    case Some(lists) =>
      var r := ResubmitFlagsFrom(lists, 0);
      assert r.Ok? ==> forall flag :: flag in r.value ==>
        exists k :: 0 <= k < |lists| && |lists[k]| > 0 && lists[k][0] == flag;
      r
  }

  // ---------------------------------------------------------------------------
  // `check_df_job_specific`

  /** Whether the job status ledger could be locked within the timeout. */
  datatype LockOutcome = Acquired | TimedOut

  /** The two callers the warning and error messages are written for. */
  predicate ValidWhich(which: string) {
    which == "babs-submit" || which == "babs-status"
  }

  function SameJob(r: Job): Job -> bool {
    l => l == r
  }

  /** `df.merge(df_job)`: for each requested row, every ledger row with the
      same subject (and session), in the order of the requests. */
  function Merge(d: seq<Job>, ledger: seq<Job>): (m: seq<Job>)
    ensures forall x :: x in m <==> x in d && x in ledger
    decreases |d|
  {
    if |d| == 0 then []
    else
      var here := Filter(ledger, SameJob(d[0]));
      assert d[0] in ledger ==> d[0] in here;
      Filter(ledger, SameJob(d[0])) + Merge(d[1..], ledger)
  }

  /** With distinct requests, the source's count comparison
      `len(df.merge(df_job).drop_duplicates()) != len(df)` fails exactly when
      some request is not in the ledger. */
  lemma MergeCountIsSubset(d: seq<Job>, ledger: seq<Job>)
    requires NoDuplicates(d)
    ensures |Dedup(Merge(d, ledger))| == |d| <==> forall i :: 0 <= i < |d| ==> d[i] in ledger
  {
    var m := Dedup(Merge(d, ledger));
    DedupElements(Merge(d, ledger));
    DistinctCardinality(m);
    DistinctCardinality(d);
    var sm := set x | x in m;
    var sd := set x | x in d;
    SubsetCardinality(sm, sd);
    if sm == sd {
      forall i | 0 <= i < |d|
        ensures d[i] in ledger
      {
        assert d[i] in sd;
      }
    }
  }

  predicate AllInLedger(s: seq<Job>, ledger: seq<Job>) {
    forall i :: 0 <= i < |s| ==> s[i] in ledger
  }

  lemma SameElementsInLedger(a: seq<Job>, b: seq<Job>, ledger: seq<Job>)
    requires forall x :: x in a <==> x in b
    ensures AllInLedger(a, ledger) <==> AllInLedger(b, ledger)
  {
    if AllInLedger(a, ledger) {
      forall i | 0 <= i < |b| ensures b[i] in ledger {
        assert b[i] in a;
      }
    }
    if AllInLedger(b, ledger) {
      forall i | 0 <= i < |a| ensures a[i] in ledger {
        assert a[i] in b;
      }
    }
  }

  /** Requested jobs are deduplicated (first occurrence kept); when the
      ledger can be locked they must all be in it. If the lock times out the
      deduplicated list is returned unchecked. An unknown caller name is an
      error only where a message would be written. */
  function CheckDfJobSpecific(rows: seq<Job>, ledger: seq<Job>, which: string, lock: LockOutcome): (r: Result<seq<Job>, Error>)
    ensures r.Ok? ==> r.value == Dedup(rows)
    ensures r.Ok? <==> ((NoDuplicates(rows) || ValidWhich(which)) &&
      (lock == TimedOut || AllInLedger(rows, ledger)))
    ensures r.Err? ==> r.error == (if ValidWhich(which) then JobNotInLedger else InvalidWhichFunction(which))
  {
    var unique := Dedup(rows);
    DedupLength(rows);
    DedupElements(rows);
    SameElementsInLedger(rows, unique, ledger);
    if |unique| != |rows| && !ValidWhich(which) then Err(InvalidWhichFunction(which))
    else
      match lock
      case TimedOut => Ok(unique)
      case Acquired =>
        MergeCountIsSubset(unique, ledger);
        if |Dedup(Merge(unique, ledger))| != |unique| then
          if ValidWhich(which) then Err(JobNotInLedger) else Err(InvalidWhichFunction(which))
        else Ok(unique)
  }

  /** A job is in the list exactly when some argument list names it. */
  ghost predicate NamesRequested(jobs: seq<Job>, lists: seq<seq<string>>) {
    forall x :: x in jobs <==> exists k :: 0 <= k < |lists| && ArgsOfJob(x) == lists[k]
  }

  lemma ArgsOfJobInjective(a: Job, b: Job)
    requires ArgsOfJob(a) == ArgsOfJob(b)
    ensures a == b
  {
    assert ArgsOfJob(a)[0] == a.sub && ArgsOfJob(b)[0] == b.sub;
    if a.ses.Some? {
      assert ArgsOfJob(a)[1] == a.ses.value;
    }
  }

  /** The job rows, deduplicated, name exactly the requested jobs. */
  lemma RowsNameRequests(lists: seq<seq<string>>, st: SessionType)
    requires CheckJobArgs(lists, st).Ok?
    ensures NamesRequested(Dedup(CheckJobArgs(lists, st).value), lists)
  {
    var rows := CheckJobArgs(lists, st).value;
    DedupElements(rows);
    forall x
      ensures x in rows <==> exists k :: 0 <= k < |lists| && ArgsOfJob(x) == lists[k]
    {
      if exists k :: 0 <= k < |lists| && ArgsOfJob(x) == lists[k] {
        var k :| 0 <= k < |lists| && ArgsOfJob(x) == lists[k];
        ArgsOfJobInjective(x, rows[k]);
      }
      if x in rows {
        var k :| 0 <= k < |rows| && rows[k] == x;
        assert ArgsOfJob(x) == lists[k];
      }
    }
  }

  // ---------------------------------------------------------------------------
  // What babs-submit and babs-status hand on

  datatype SubmitRequest = SubmitRequest(count: int, jobs: Option<seq<Job>>)

  /** `babs_submit_main` up to the call of `babs_submit`. */
  function BabsSubmitArgs(all: bool, count: Option<int>, job: Option<seq<seq<string>>>,
                          st: SessionType, ledger: seq<Job>, lock: LockOutcome): (r: Result<SubmitRequest, Error>)
    ensures !all && count == Some(0) ==> r == Err(CountZero)
    ensures r.Ok? ==> r.value.jobs.Some? == job.Some? && r.value.count != 0
    ensures r.Ok? && job.Some? ==> r.value.count == -1
    ensures job.None? ==> (r.Ok? <==> all || count != Some(0))
    ensures r.Ok? && job.Some? ==>
      NoDuplicates(r.value.jobs.value) &&
      (forall k :: 0 <= k < |job.value| ==> ArgWellFormed(job.value[k], st)) &&
      NamesRequested(r.value.jobs.value, job.value) &&
      (lock == Acquired ==> forall x :: x in r.value.jobs.value ==> x in ledger)
    ensures job.Some? ==> (r.Ok? <==>
      (all || count != Some(0)) &&
      (forall k :: 0 <= k < |job.value| ==> ArgWellFormed(job.value[k], st)) &&
      (lock == TimedOut || AllInLedger(CheckJobArgs(job.value, st).value, ledger)))
  {
    var c :- SubmitCount(all, count, job.Some?);
    match job
    case None => Ok(SubmitRequest(c, None))
    case Some(lists) =>
      var rows :- CheckJobArgs(lists, st);
      var d :- CheckDfJobSpecific(rows, ledger, "babs-submit", lock);
      DedupElements(rows);
      RowsNameRequests(lists, st);
      Ok(SubmitRequest(c, Some(d)))
  }

  /** The `--resubmit-job` lists checked and deduplicated; an empty result
      means no valid job was requested. */
  function ResubmitJobs(lists: seq<seq<string>>, st: SessionType, ledger: seq<Job>, lock: LockOutcome): (r: Result<seq<Job>, Error>)
    ensures r.Ok? <==>
      |lists| > 0 &&
      (forall k :: 0 <= k < |lists| ==> ArgWellFormed(lists[k], st)) &&
      (lock == TimedOut || AllInLedger(CheckJobArgs(lists, st).value, ledger))
    ensures |lists| == 0 ==> r == Err(NoValidResubmitJob)
    ensures r.Ok? ==>
      |r.value| > 0 && NoDuplicates(r.value) && NamesRequested(r.value, lists) &&
      (lock == Acquired ==> forall x :: x in r.value ==> x in ledger)
  {
    var rows :- CheckJobArgs(lists, st);
    var d :- CheckDfJobSpecific(rows, ledger, "babs-status", lock);
    DedupElements(rows);
    assert |lists| > 0 ==> rows[0] in d;
    RowsNameRequests(lists, st);
    if |d| == 0 then Err(NoValidResubmitJob)
    else Ok(d)
  }

  datatype StatusRequest = StatusRequest(flags: set<string>, jobs: Option<seq<Job>>, reckless: bool)

  /** `babs_status_main` up to the call of `babs_status`. */
  function BabsStatusArgs(resubmit: Option<seq<seq<string>>>, resubmitJob: Option<seq<seq<string>>>,
                          reckless: bool, st: SessionType, ledger: seq<Job>, lock: LockOutcome): (r: Result<StatusRequest, Error>)
    ensures r.Ok? ==> r.value.reckless == reckless
    ensures r.Ok? ==> ResubmitFlags(resubmit) == Ok(r.value.flags)
    ensures ResubmitFlags(resubmit).Err? ==> r == Err(ResubmitFlags(resubmit).error)
    ensures r.Ok? ==> r.value.jobs.Some? == resubmitJob.Some?
    ensures r.Ok? && resubmitJob.Some? ==> |r.value.jobs.value| > 0
    ensures ResubmitFlags(resubmit).Ok? && resubmitJob == Some([]) ==> r == Err(NoValidResubmitJob)
    ensures r.Ok? && resubmitJob.Some? ==>
      NoDuplicates(r.value.jobs.value) &&
      NamesRequested(r.value.jobs.value, resubmitJob.value) &&
      (lock == Acquired ==> forall x :: x in r.value.jobs.value ==> x in ledger)
    ensures r.Ok? <==> (ResubmitFlags(resubmit).Ok? &&
      (resubmitJob.Some? ==>
        |resubmitJob.value| > 0 &&
        (forall k :: 0 <= k < |resubmitJob.value| ==> ArgWellFormed(resubmitJob.value[k], st)) &&
        (lock == TimedOut || AllInLedger(CheckJobArgs(resubmitJob.value, st).value, ledger))))
  {
    var flags :- ResubmitFlags(resubmit);
    match resubmitJob
    case None => Ok(StatusRequest(flags, None, reckless))
    case Some(lists) =>
      var d :- ResubmitJobs(lists, st, ledger, lock);
      Ok(StatusRequest(flags, Some(d), reckless))
  }
}
