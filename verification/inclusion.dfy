/** Filtering of the initial subject (session) list by `required_files`
    (babs/utils.py, `get_list_sub_ses`, from the sanity check of the section
    to the final subject-major list). */
module Inclusion {
  import opened Wrappers
  import opened Types
  import opened Seqs

  /** Whether `glob.glob` of the path made of these components (dataset root,
      subject, session or `**`, file pattern) matches anything. */
  type Glob = seq<string> -> bool

  /** Section `required_files`: for each `$INPUT_DATASET_#<n>` key, the file
      patterns each subject (session) must have in input dataset n. */
  type RequiredFiles = seq<(string, seq<string>)>

  // ---------------------------------------------------------------------------
  // The dataset number in a `required_files` key

  /** `key.split('#', 1)[1]`: what follows the first `#`, if there is one. */
  function AfterHash(key: string): Option<string>
    decreases |key|
  {
    if |key| == 0 then None
    else if key[0] == '#' then Some(key[1..])
    else AfterHash(key[1..])
  }

  predicate IsDigits(s: string) {
    |s| > 0 && forall i :: 0 <= i < |s| ==> '0' <= s[i] <= '9'
  }

  function DigitsValue(s: string): nat
    requires forall i :: 0 <= i < |s| ==> '0' <= s[i] <= '9'
    decreases |s|
  {
    if |s| == 0 then 0
    else DigitsValue(s[..|s| - 1]) * 10 + (s[|s| - 1] as int - '0' as int)
  }

  /** `int(key.split('#', 1)[1])` for keys whose number is written in plain
      decimal digits; `None` where Python raises. */
  function DatasetNumber(key: string): Option<nat> {
    match AfterHash(key)
    case None => None
    case Some(rest) => if IsDigits(rest) then Some(DigitsValue(rest)) else None
  }

  /** The decimal digits of a number, most significant first. */
  function Digits(n: nat): (s: string)
    ensures IsDigits(s)
    decreases n
  {
    if n < 10 then [('0' as int + n) as char]
    else Digits(n / 10) + [('0' as int + n % 10) as char]
  }

  /** The key that designates input dataset `n`. */
  function DatasetKey(n: nat): string {
    "$INPUT_DATASET_#" + Digits(n)
  }

  lemma {:induction false} DigitsRoundTrip(n: nat)
    ensures DigitsValue(Digits(n)) == n
    decreases n
  {
    if n >= 10 {
      DigitsRoundTrip(n / 10);
      var s := Digits(n);
      assert s[..|s| - 1] == Digits(n / 10);
    }
  }

  lemma {:induction false} AfterFirstHash(a: string, b: string)
    requires '#' !in a
    ensures AfterHash(a + "#" + b) == Some(b)
    decreases |a|
  {
    if |a| == 0 {
      assert a + "#" + b == "#" + b;
    } else {
      assert (a + "#" + b)[1..] == a[1..] + "#" + b;
      AfterFirstHash(a[1..], b);
    }
  }

  /** Reading back the dataset number of a key written for dataset `n` gives `n`. */
  lemma DatasetKeyRoundTrip(n: nat)
    ensures DatasetNumber(DatasetKey(n)) == Some(n)
  {
    AfterFirstHash("$INPUT_DATASET_", Digits(n));
    assert "$INPUT_DATASET_" + "#" + Digits(n) == DatasetKey(n);
    DigitsRoundTrip(n);
  }

  // ---------------------------------------------------------------------------
  // Sanity check of the section

  predicate KeyDesignatesDataset(key: string, numDs: nat) {
    DatasetNumber(key).Some? && DatasetNumber(key).value <= numDs
  }

  /** The zero-based dataset index (`n - 1`, which is -1 for `#0`) of each key. */
  function DatasetIndices(required: RequiredFiles, numDs: nat): (r: Result<seq<int>, Error>)
    ensures r.Ok? <==> forall k :: 0 <= k < |required| ==> KeyDesignatesDataset(required[k].0, numDs)
    ensures r.Ok? ==> |r.value| == |required|
    ensures r.Ok? ==> forall k :: 0 <= k < |required| ==>
      -1 <= r.value[k] < numDs && DatasetNumber(required[k].0) == Some(r.value[k] + 1)
    decreases |required|
  {
    if |required| == 0 then Ok([])
    else
      assert forall k :: 1 <= k < |required| ==> required[1..][k - 1] == required[k];
      var key := required[0].0;
      match DatasetNumber(key)
      case None => Err(BadDatasetKey(key))
      case Some(n) =>
        if n > numDs then Err(DatasetNotExist(key))
        else
          var rest :- DatasetIndices(required[1..], numDs);
          Ok([n - 1] + rest)
  }

  /** The checks made before any filtering: no more keys than datasets, and
      every key names an existing dataset. */
  function CheckRequiredFiles(required: RequiredFiles, numDs: nat): (r: Result<seq<int>, Error>)
    ensures |required| > numDs ==> r == Err(TooManyRequiredDatasets)
    ensures r.Ok? <==> (|required| <= numDs &&
      forall k :: 0 <= k < |required| ==> KeyDesignatesDataset(required[k].0, numDs))
    ensures r.Ok? ==> r.value == DatasetIndices(required, numDs).value
  {
    if |required| > numDs then Err(TooManyRequiredDatasets)
    else DatasetIndices(required, numDs)
  }

  /** A required-files check against one unzipped dataset. */
  datatype Check = Check(ds: InputDs, files: seq<string>)

  /** Zipped datasets are skipped; index -1 (key `#0`) fails the dataframe
      lookup. */
  function ResolveChecks(inputDs: seq<InputDs>, required: RequiredFiles, indices: seq<int>): (r: Result<seq<Check>, Error>)
    requires |indices| == |required|
    requires forall k :: 0 <= k < |indices| ==> -1 <= indices[k] < |inputDs|
    ensures r.Ok? <==> forall k :: 0 <= k < |indices| ==> indices[k] >= 0
    ensures r.Ok? ==> forall c :: c in r.value ==> !c.ds.isZipped
    ensures r.Ok? ==> forall k :: 0 <= k < |indices| && !inputDs[indices[k]].isZipped ==>
      Check(inputDs[indices[k]], required[k].1) in r.value
    ensures r.Ok? ==> forall c :: c in r.value ==>
      exists k :: 0 <= k < |indices| && c == Check(inputDs[indices[k]], required[k].1)
    decreases |indices|
  {
    if |indices| == 0 then Ok([])
    else if indices[0] < 0 then Err(BadDatasetKey(required[0].0))
    else
      var rest :- ResolveChecks(inputDs, required[1..], indices[1..]);
      assert forall k :: 1 <= k < |indices| ==> indices[1..][k - 1] == indices[k] && required[1..][k - 1] == required[k];
      var ds := inputDs[indices[0]];
      Ok((if ds.isZipped then [] else [Check(ds, required[0].1)]) + rest)
  }

  /** One row of the missing-required-file report. */
  datatype Missing = Missing(sub: string, ses: Option<string>, dataset: string, file: string)

  /** The subject of each report, in order. */
  function ReportedSubjects(ms: seq<Missing>): (r: seq<string>)
    ensures |r| == |ms|
    ensures forall i :: 0 <= i < |ms| ==> r[i] == ms[i].sub
  {
    seq(|ms|, i requires 0 <= i < |ms| => ms[i].sub)
  }

  /** The session a report names (`""` for a subject-level report). */
  function SessionName(m: Missing): string {
    if m.ses.Some? then m.ses.value else ""
  }

  /** The session of each report, in order. */
  function ReportedSessions(ms: seq<Missing>): (r: seq<string>)
    ensures |r| == |ms|
    ensures forall i :: 0 <= i < |ms| ==> r[i] == SessionName(ms[i])
  {
    seq(|ms|, i requires 0 <= i < |ms| => SessionName(ms[i]))
  }

  /** The first file pattern that `found` rejects. */
  function FirstMissing(files: seq<string>, found: string -> bool): (r: Option<string>)
    ensures r.None? <==> forall i :: 0 <= i < |files| ==> found(files[i])
    ensures r.Some? ==> r.value in files && !found(r.value)
    decreases |files|
  {
    if |files| == 0 then None
    else if !found(files[0]) then Some(files[0])
    else
      assert forall i :: 1 <= i < |files| ==> files[1..][i - 1] == files[i];
      FirstMissing(files[1..], found)
  }

  // ---------------------------------------------------------------------------
  // Single-session projects

  /** A subject has a file if it is directly in the subject folder or one
      folder level below it (`**` without `recursive=True` matches exactly one
      path component). */
  function SubjectFound(glob: Glob, ds: InputDs, sub: string): string -> bool {
    file => glob([ds.pathNowAbs, sub, file]) || glob([ds.pathNowAbs, sub, "**", file])
  }

  predicate SubjectHasFiles(glob: Glob, c: Check, sub: string) {
    forall i :: 0 <= i < |c.files| ==> SubjectFound(glob, c.ds, sub)(c.files[i])
  }

  function SubjectTest(glob: Glob, c: Check): string -> bool {
    sub => SubjectHasFiles(glob, c, sub)
  }

  function SubjectDropTest(glob: Glob, c: Check): string -> bool {
    sub => !SubjectHasFiles(glob, c, sub)
  }

  /** Each report is subject-level, names dataset `c`, and gives the first
      required file of `c` the subject misses. */
  predicate SubjectReports(glob: Glob, c: Check, ms: seq<Missing>) {
    forall i :: 0 <= i < |ms| ==>
      ms[i].ses.None? && ms[i].dataset == c.ds.name &&
      FirstMissing(c.files, SubjectFound(glob, c.ds, ms[i].sub)) == Some(ms[i].file)
  }

  lemma SubjectReportsCons(glob: Glob, c: Check, m: Missing, ms: seq<Missing>)
    requires SubjectReports(glob, c, ms)
    requires m.ses.None? && m.dataset == c.ds.name
    requires FirstMissing(c.files, SubjectFound(glob, c.ds, m.sub)) == Some(m.file)
    ensures SubjectReports(glob, c, [m] + ms)
    ensures ReportedSubjects([m] + ms) == [m.sub] + ReportedSubjects(ms)
  {
    assert forall i :: 1 <= i < |[m] + ms| ==> ([m] + ms)[i] == ms[i - 1];
  }

  /** The first subject goes to the kept list or to the report according to
      whether a required file is missing. */
  lemma SubjectStep(glob: Glob, c: Check, subs: seq<string>)
    requires |subs| > 0
    ensures var missing := FirstMissing(c.files, SubjectFound(glob, c.ds, subs[0]));
      (missing.None? <==> SubjectHasFiles(glob, c, subs[0])) &&
      Filter(subs, SubjectTest(glob, c)) ==
        (if missing.None? then [subs[0]] else []) + Filter(subs[1..], SubjectTest(glob, c)) &&
      Filter(subs, SubjectDropTest(glob, c)) ==
        (if missing.None? then [] else [subs[0]]) + Filter(subs[1..], SubjectDropTest(glob, c))
  {
  }

  /** One dataset's pass over the subjects: a subject missing a file is
      dropped and reported once, in subject order, with the first file it
      misses. */
  function SubjectPass(glob: Glob, c: Check, subs: seq<string>): (r: (seq<string>, seq<Missing>))
    ensures r.0 == Filter(subs, SubjectTest(glob, c))
    ensures ReportedSubjects(r.1) == Filter(subs, SubjectDropTest(glob, c))
    ensures |r.0| + |r.1| == |subs|
    ensures SubjectReports(glob, c, r.1)
    decreases |subs|
  {
    if |subs| == 0 then ([], [])
    else
      var rest := SubjectPass(glob, c, subs[1..]);
      var sub := subs[0];
      var missing := FirstMissing(c.files, SubjectFound(glob, c.ds, sub));
      SubjectStep(glob, c, subs);
      if missing.None? then ([sub] + rest.0, rest.1)
      else
        var m := Missing(sub, None, c.ds.name, missing.value);
        SubjectReportsCons(glob, c, m, rest.1);
        (rest.0, [m] + rest.1)
  }

  /** The datasets' passes, one after the other. */
  function SubjectPasses(glob: Glob, checks: seq<Check>, subs: seq<string>): (r: (seq<string>, seq<Missing>))
    decreases |checks|
  {
    if |checks| == 0 then (subs, [])
    else
      var first := SubjectPass(glob, checks[0], subs);
      var rest := SubjectPasses(glob, checks[1..], first.0);
      (rest.0, first.1 + rest.1)
  }

  /** A subject is kept when it has the required files of every checked dataset. */
  predicate KeepSubject(glob: Glob, checks: seq<Check>, sub: string) {
    forall k :: 0 <= k < |checks| ==> SubjectHasFiles(glob, checks[k], sub)
  }

  function KeepSubjectTest(glob: Glob, checks: seq<Check>): string -> bool {
    sub => KeepSubject(glob, checks, sub)
  }

  /** The passes together keep exactly the subjects that have every required
      file, and report each other subject exactly once. */
  lemma {:induction false} SubjectPassesKeep(glob: Glob, checks: seq<Check>, subs: seq<string>)
    ensures SubjectPasses(glob, checks, subs).0 == Filter(subs, KeepSubjectTest(glob, checks))
    ensures |SubjectPasses(glob, checks, subs).0| + |SubjectPasses(glob, checks, subs).1| == |subs|
    decreases |checks|
  {
    if |checks| == 0 {
      FilterAll(subs, KeepSubjectTest(glob, checks));
    } else {
      var first := SubjectPass(glob, checks[0], subs);
      var rest := SubjectPasses(glob, checks[1..], first.0);
      assert SubjectPasses(glob, checks, subs) == (rest.0, first.1 + rest.1);
      SubjectPassesKeep(glob, checks[1..], first.0);
      KeepSubjectSplit(glob, checks);
      FilterCompose(subs, SubjectTest(glob, checks[0]), KeepSubjectTest(glob, checks[1..]),
                    KeepSubjectTest(glob, checks));
    }
  }

  lemma KeepSubjectSplit(glob: Glob, checks: seq<Check>)
    requires |checks| > 0
    ensures forall sub :: (KeepSubjectTest(glob, checks)(sub) ==
      (SubjectTest(glob, checks[0])(sub) && KeepSubjectTest(glob, checks[1..])(sub)))
  {
    forall sub
      ensures KeepSubjectTest(glob, checks)(sub) ==
        (SubjectTest(glob, checks[0])(sub) && KeepSubjectTest(glob, checks[1..])(sub))
    {
      assert forall k :: 1 <= k < |checks| ==> checks[1..][k - 1] == checks[k];
    }
  }

  function DropSubjectTest(glob: Glob, checks: seq<Check>): string -> bool {
    sub => !KeepSubject(glob, checks, sub)
  }

  /** A report names the first checked dataset the subject fails, and the
      first required file of that dataset it misses. */
  predicate ReportedAtFirstFailure(glob: Glob, checks: seq<Check>, m: Missing) {
    m.ses.None? &&
    exists k :: 0 <= k < |checks| && m.dataset == checks[k].ds.name &&
      FirstMissing(checks[k].files, SubjectFound(glob, checks[k].ds, m.sub)) == Some(m.file) &&
      forall j :: 0 <= j < k ==> SubjectHasFiles(glob, checks[j], m.sub)
  }

  lemma ReportedSubjectsAppend(a: seq<Missing>, b: seq<Missing>)
    ensures ReportedSubjects(a + b) == ReportedSubjects(a) + ReportedSubjects(b)
  {
  }

  /** The passes together report every dropped subject exactly once (as
      often as it is listed), each at the first dataset it fails. */
  lemma {:induction false} SubjectPassesReport(glob: Glob, checks: seq<Check>, subs: seq<string>)
    ensures multiset(ReportedSubjects(SubjectPasses(glob, checks, subs).1)) ==
      multiset(Filter(subs, DropSubjectTest(glob, checks)))
    ensures forall m :: m in SubjectPasses(glob, checks, subs).1 ==>
      m.sub in subs && ReportedAtFirstFailure(glob, checks, m)
    decreases |checks|
  {
    if |checks| == 0 {
      FilterEmpty(subs, DropSubjectTest(glob, checks));
    } else {
      var first := SubjectPass(glob, checks[0], subs);
      var rest := SubjectPasses(glob, checks[1..], first.0);
      assert SubjectPasses(glob, checks, subs) == (rest.0, first.1 + rest.1);
      SubjectPassesReport(glob, checks[1..], first.0);
      ReportedSubjectsAppend(first.1, rest.1);
      KeepSubjectSplit(glob, checks);
      FilterDropTwice(subs, SubjectTest(glob, checks[0]), SubjectDropTest(glob, checks[0]),
                      KeepSubjectTest(glob, checks[1..]), DropSubjectTest(glob, checks[1..]),
                      DropSubjectTest(glob, checks));
      forall m | m in first.1 + rest.1
        ensures m.sub in subs && ReportedAtFirstFailure(glob, checks, m)
      {
        if m in first.1 {
          var i :| 0 <= i < |first.1| && first.1[i] == m;
          assert ReportedSubjects(first.1)[i] == m.sub;
          assert m.dataset == checks[0].ds.name;
        } else {
          ReportedLater(glob, checks, subs, m);
        }
      }
    }
  }

  /** A subject reported by a later pass passed the first one. */
  lemma ReportedLater(glob: Glob, checks: seq<Check>, subs: seq<string>, m: Missing)
    requires |checks| > 0
    requires m.sub in Filter(subs, SubjectTest(glob, checks[0]))
    requires ReportedAtFirstFailure(glob, checks[1..], m)
    ensures m.sub in subs && ReportedAtFirstFailure(glob, checks, m)
  {
    var i :| 0 <= i < |Filter(subs, SubjectTest(glob, checks[0]))| && Filter(subs, SubjectTest(glob, checks[0]))[i] == m.sub;
    assert SubjectHasFiles(glob, checks[0], m.sub);
    var k :| 0 <= k < |checks[1..]| && m.dataset == checks[1..][k].ds.name &&
      FirstMissing(checks[1..][k].files, SubjectFound(glob, checks[1..][k].ds, m.sub)) == Some(m.file) &&
      forall j :: 0 <= j < k ==> SubjectHasFiles(glob, checks[1..][j], m.sub);
    assert checks[1..][k] == checks[k + 1];
    forall j | 0 <= j < k + 1
      ensures SubjectHasFiles(glob, checks[j], m.sub)
    {
      if j > 0 {
        assert checks[1..][j - 1] == checks[j];
      }
    }
  }

  /** Every dataset a check names exists, and every required-files key
      designates a dataset (zipped datasets are then skipped). */
  function Checks(inputDs: seq<InputDs>, required: RequiredFiles): (r: Result<seq<Check>, Error>)
    ensures r.Ok? <==> (|required| <= |inputDs| && forall k :: 0 <= k < |required| ==>
      DatasetNumber(required[k].0).Some? && 1 <= DatasetNumber(required[k].0).value <= |inputDs|)
    ensures r.Ok? ==> forall c :: c in r.value ==> !c.ds.isZipped && c.ds in inputDs
  {
    var indices :- CheckRequiredFiles(required, |inputDs|);
    ResolveChecks(inputDs, required, indices)
  }

  datatype SingleSesList = SingleSesList(subs: seq<string>, missing: seq<Missing>)

  /** Single-session filtering: without `required_files` the list is kept as
      it is; otherwise a subject stays exactly when it has every required file
      of every unzipped designated dataset, and every dropped subject is
      reported once, at the first dataset it fails. */
  function FilterSingleSes(glob: Glob, inputDs: seq<InputDs>, required: Option<RequiredFiles>,
                           subs: seq<string>): (r: Result<SingleSesList, Error>)
    ensures required.None? ==> r == Ok(SingleSesList(subs, []))
    ensures required.Some? ==> (r.Ok? <==> Checks(inputDs, required.value).Ok?)
    ensures required.Some? && r.Ok? ==>
      r.value.subs == Filter(subs, KeepSubjectTest(glob, Checks(inputDs, required.value).value))
    ensures r.Ok? ==> |r.value.subs| + |r.value.missing| == |subs|
    ensures required.Some? && r.Ok? ==> (multiset(ReportedSubjects(r.value.missing)) ==
      multiset(Filter(subs, DropSubjectTest(glob, Checks(inputDs, required.value).value))))
    ensures required.Some? && r.Ok? ==> forall m :: m in r.value.missing ==>
      m.sub in subs && ReportedAtFirstFailure(glob, Checks(inputDs, required.value).value, m)
  {
    match required
    case None => Ok(SingleSesList(subs, []))
    case Some(req) =>
      var checks :- Checks(inputDs, req);
      SubjectPassesKeep(glob, checks, subs);
      SubjectPassesReport(glob, checks, subs);
      var passes := SubjectPasses(glob, checks, subs);
      Ok(SingleSesList(passes.0, passes.1))
  }

  // ---------------------------------------------------------------------------
  // Multi-session projects

  /** Sessions of each subject, in the order of the source's dictionary. */
  type SubSes = seq<(string, seq<string>)>

  function SessionFound(glob: Glob, ds: InputDs, sub: string, ses: string): string -> bool {
    file => glob([ds.pathNowAbs, sub, ses, file])
  }

  predicate SessionHasFiles(glob: Glob, c: Check, sub: string, ses: string) {
    forall i :: 0 <= i < |c.files| ==> SessionFound(glob, c.ds, sub, ses)(c.files[i])
  }

  function SessionTest(glob: Glob, c: Check, sub: string): string -> bool {
    ses => SessionHasFiles(glob, c, sub, ses)
  }

  function SessionDropTest(glob: Glob, c: Check, sub: string): string -> bool {
    ses => !SessionHasFiles(glob, c, sub, ses)
  }

  /** Each report names subject `sub`, one of its sessions and dataset `c`,
      and gives the first required file of `c` the session misses. */
  predicate SessionReports(glob: Glob, c: Check, sub: string, ms: seq<Missing>) {
    forall i :: 0 <= i < |ms| ==>
      ms[i].sub == sub && ms[i].ses.Some? && ms[i].dataset == c.ds.name &&
      FirstMissing(c.files, SessionFound(glob, c.ds, sub, ms[i].ses.value)) == Some(ms[i].file)
  }

  lemma SessionReportsCons(glob: Glob, c: Check, sub: string, m: Missing, ms: seq<Missing>)
    requires SessionReports(glob, c, sub, ms)
    requires m.sub == sub && m.ses.Some? && m.dataset == c.ds.name
    requires FirstMissing(c.files, SessionFound(glob, c.ds, sub, m.ses.value)) == Some(m.file)
    ensures SessionReports(glob, c, sub, [m] + ms)
    ensures ReportedSessions([m] + ms) == [m.ses.value] + ReportedSessions(ms)
  {
    assert forall i :: 1 <= i < |[m] + ms| ==> ([m] + ms)[i] == ms[i - 1];
  }

  lemma SessionStep(glob: Glob, c: Check, sub: string, sess: seq<string>)
    requires |sess| > 0
    ensures var missing := FirstMissing(c.files, SessionFound(glob, c.ds, sub, sess[0]));
      (missing.None? <==> SessionHasFiles(glob, c, sub, sess[0])) &&
      Filter(sess, SessionTest(glob, c, sub)) ==
        (if missing.None? then [sess[0]] else []) + Filter(sess[1..], SessionTest(glob, c, sub)) &&
      Filter(sess, SessionDropTest(glob, c, sub)) ==
        (if missing.None? then [] else [sess[0]]) + Filter(sess[1..], SessionDropTest(glob, c, sub))
  {
  }

  /** One dataset's pass over one subject's sessions: a session missing a
      file is dropped and reported once, in session order, with the first
      file it misses. */
  function SessionPass(glob: Glob, c: Check, sub: string, sess: seq<string>): (r: (seq<string>, seq<Missing>))
    ensures r.0 == Filter(sess, SessionTest(glob, c, sub))
    ensures ReportedSessions(r.1) == Filter(sess, SessionDropTest(glob, c, sub))
    ensures |r.0| + |r.1| == |sess|
    ensures SessionReports(glob, c, sub, r.1)
    decreases |sess|
  {
    if |sess| == 0 then ([], [])
    else
      var rest := SessionPass(glob, c, sub, sess[1..]);
      var ses := sess[0];
      var missing := FirstMissing(c.files, SessionFound(glob, c.ds, sub, ses));
      SessionStep(glob, c, sub, sess);
      if missing.None? then ([ses] + rest.0, rest.1)
      else
        var m := Missing(sub, Some(ses), c.ds.name, missing.value);
        SessionReportsCons(glob, c, sub, m, rest.1);
        (rest.0, [m] + rest.1)
  }

  /** The (subject, session) pairs, subject-major. */
  function Flatten(d: SubSes): (r: seq<(string, string)>)
    decreases |d|
  {
    if |d| == 0 then []
    else seq(|d[0].1|, i requires 0 <= i < |d[0].1| => (d[0].0, d[0].1[i])) + Flatten(d[1..])
  }

  lemma {:induction false} FlattenMembership(d: SubSes, sub: string, ses: string)
    ensures (sub, ses) in Flatten(d) <==> exists i :: 0 <= i < |d| && d[i].0 == sub && ses in d[i].1
    decreases |d|
  {
    if |d| > 0 {
      FlattenMembership(d[1..], sub, ses);
      if (sub, ses) in Flatten(d[1..]) {
        var i :| 0 <= i < |d[1..]| && d[1..][i].0 == sub && ses in d[1..][i].1;
        assert d[i + 1] == d[1..][i];
      }
      if exists i :: 0 <= i < |d| && d[i].0 == sub && ses in d[i].1 {
        var i :| 0 <= i < |d| && d[i].0 == sub && ses in d[i].1;
        if i > 0 {
          assert d[1..][i - 1] == d[i];
        } else {
          var j :| 0 <= j < |d[0].1| && d[0].1[j] == ses;
          var head := seq(|d[0].1|, i requires 0 <= i < |d[0].1| => (d[0].0, d[0].1[i]));
          assert head[j] == (sub, ses);
        }
      }
    }
  }

  lemma {:induction false} FlattenAppend(a: SubSes, b: SubSes)
    ensures Flatten(a + b) == Flatten(a) + Flatten(b)
    decreases |a|
  {
    if |a| == 0 {
      assert a + b == b;
    } else {
      assert (a + b)[1..] == a[1..] + b;
      FlattenAppend(a[1..], b);
    }
  }

  /** One dataset's pass over every subject with at least one session. */
  function DatasetPass(glob: Glob, c: Check, d: SubSes): (r: (SubSes, seq<Missing>))
    ensures |r.0| == |d|
    ensures forall i :: 0 <= i < |d| ==> r.0[i] == (d[i].0, Filter(d[i].1, SessionTest(glob, c, d[i].0)))
    ensures |Flatten(r.0)| + |r.1| == |Flatten(d)|
    decreases |d|
  {
    if |d| == 0 then ([], [])
    else
      var sub := d[0].0;
      var first := SessionPass(glob, c, sub, d[0].1);
      var rest := DatasetPass(glob, c, d[1..]);
      assert forall i :: 1 <= i < |d| ==> d[1..][i - 1] == d[i];
      ([(sub, first.0)] + rest.0, first.1 + rest.1)
  }

  /** The datasets' passes, one after the other. */
  function DatasetPasses(glob: Glob, checks: seq<Check>, d: SubSes): (r: (SubSes, seq<Missing>))
    decreases |checks|
  {
    if |checks| == 0 then (d, [])
    else
      var first := DatasetPass(glob, checks[0], d);
      var rest := DatasetPasses(glob, checks[1..], first.0);
      (rest.0, first.1 + rest.1)
  }

  /** A session is kept when it has the required files of every checked dataset. */
  predicate KeepSession(glob: Glob, checks: seq<Check>, sub: string, ses: string) {
    forall k :: 0 <= k < |checks| ==> SessionHasFiles(glob, checks[k], sub, ses)
  }

  function KeepSessionTest(glob: Glob, checks: seq<Check>, sub: string): string -> bool {
    ses => KeepSession(glob, checks, sub, ses)
  }

  /** The passes together keep, for each subject, exactly the sessions that
      have every required file, and report each other session once. */
  lemma {:induction false} DatasetPassesKeep(glob: Glob, checks: seq<Check>, d: SubSes)
    ensures |DatasetPasses(glob, checks, d).0| == |d|
    ensures forall i :: 0 <= i < |d| ==>
      DatasetPasses(glob, checks, d).0[i] == (d[i].0, Filter(d[i].1, KeepSessionTest(glob, checks, d[i].0)))
    ensures |Flatten(DatasetPasses(glob, checks, d).0)| + |DatasetPasses(glob, checks, d).1| == |Flatten(d)|
    decreases |checks|
  {
    if |checks| == 0 {
      forall i | 0 <= i < |d|
        ensures d[i] == (d[i].0, Filter(d[i].1, KeepSessionTest(glob, checks, d[i].0)))
      {
        FilterAll(d[i].1, KeepSessionTest(glob, checks, d[i].0));
      }
    } else {
      var first := DatasetPass(glob, checks[0], d);
      DatasetPassesKeep(glob, checks[1..], first.0);
      var r := DatasetPasses(glob, checks, d);
      forall i | 0 <= i < |d|
        ensures r.0[i] == (d[i].0, Filter(d[i].1, KeepSessionTest(glob, checks, d[i].0)))
      {
        var sub := d[i].0;
        forall ses
          ensures KeepSessionTest(glob, checks, sub)(ses) ==
            (SessionTest(glob, checks[0], sub)(ses) && KeepSessionTest(glob, checks[1..], sub)(ses))
        {
          assert forall k :: 1 <= k < |checks| ==> checks[1..][k - 1] == checks[k];
        }
        FilterCompose(d[i].1, SessionTest(glob, checks[0], sub), KeepSessionTest(glob, checks[1..], sub),
                      KeepSessionTest(glob, checks, sub));
      }
    }
  }

  /** A report names a (subject, session) pair, the first checked dataset
      that session fails, and the first required file of that dataset it
      misses. */
  predicate SessionReportedAtFirstFailure(glob: Glob, checks: seq<Check>, m: Missing) {
    m.ses.Some? &&
    exists k :: 0 <= k < |checks| && m.dataset == checks[k].ds.name &&
      FirstMissing(checks[k].files, SessionFound(glob, checks[k].ds, m.sub, m.ses.value)) == Some(m.file) &&
      forall j :: 0 <= j < k ==> SessionHasFiles(glob, checks[j], m.sub, m.ses.value)
  }

  /** A pair left after one dataset's pass was a pair before it, and its
      session has that dataset's files. */
  lemma PassedPair(glob: Glob, c: Check, d: SubSes, sub: string, ses: string)
    requires (sub, ses) in Flatten(DatasetPass(glob, c, d).0)
    ensures (sub, ses) in Flatten(d) && SessionHasFiles(glob, c, sub, ses)
  {
    var r := DatasetPass(glob, c, d).0;
    FlattenMembership(r, sub, ses);
    FlattenMembership(d, sub, ses);
    var i :| 0 <= i < |r| && r[i].0 == sub && ses in r[i].1;
    var j :| 0 <= j < |r[i].1| && r[i].1[j] == ses;
    assert r[i].1 == Filter(d[i].1, SessionTest(glob, c, d[i].0));
  }

  /** One dataset's pass reports only pairs of the dictionary, each with
      the first file of that dataset its session misses. */
  lemma {:induction false} DatasetPassReports(glob: Glob, c: Check, d: SubSes)
    ensures forall m :: m in DatasetPass(glob, c, d).1 ==>
      m.ses.Some? && m.dataset == c.ds.name && (m.sub, m.ses.value) in Flatten(d) &&
      FirstMissing(c.files, SessionFound(glob, c.ds, m.sub, m.ses.value)) == Some(m.file)
    decreases |d|
  {
    if |d| > 0 {
      var sub := d[0].0;
      var first := SessionPass(glob, c, sub, d[0].1);
      var rest := DatasetPass(glob, c, d[1..]);
      DatasetPassReports(glob, c, d[1..]);
      assert DatasetPass(glob, c, d).1 == first.1 + rest.1;
      FlattenAppend([d[0]], d[1..]);
      assert [d[0]] + d[1..] == d;
      forall m | m in first.1 + rest.1
        ensures m.ses.Some? && m.dataset == c.ds.name && (m.sub, m.ses.value) in Flatten(d) &&
          FirstMissing(c.files, SessionFound(glob, c.ds, m.sub, m.ses.value)) == Some(m.file)
      {
        if m in first.1 {
          var i :| 0 <= i < |first.1| && first.1[i] == m;
          assert ReportedSessions(first.1)[i] == m.ses.value;
          assert m.ses.value in d[0].1;
          FlattenMembership([d[0]], m.sub, m.ses.value);
          assert [d[0]][0] == d[0];
        }
      }
    }
  }

  /** The passes together report only pairs of the dictionary, each at the
      first dataset its session fails. */
  lemma {:induction false} DatasetPassesReport(glob: Glob, checks: seq<Check>, d: SubSes)
    ensures forall m :: m in DatasetPasses(glob, checks, d).1 ==>
      m.ses.Some? && (m.sub, m.ses.value) in Flatten(d) && SessionReportedAtFirstFailure(glob, checks, m)
    decreases |checks|
  {
    if |checks| > 0 {
      var first := DatasetPass(glob, checks[0], d);
      var rest := DatasetPasses(glob, checks[1..], first.0);
      assert DatasetPasses(glob, checks, d).1 == first.1 + rest.1;
      DatasetPassReports(glob, checks[0], d);
      DatasetPassesReport(glob, checks[1..], first.0);
      forall m | m in first.1 + rest.1
        ensures m.ses.Some? && (m.sub, m.ses.value) in Flatten(d) && SessionReportedAtFirstFailure(glob, checks, m)
      {
        if m in first.1 {
          assert m.dataset == checks[0].ds.name;
        } else {
          PassedPair(glob, checks[0], d, m.sub, m.ses.value);
          SessionReportedLater(glob, checks, m);
        }
      }
    }
  }

  /** A session reported by a later pass, having passed the first one, is
      reported at its first failure. */
  lemma SessionReportedLater(glob: Glob, checks: seq<Check>, m: Missing)
    requires |checks| > 0
    requires m.ses.Some? && SessionHasFiles(glob, checks[0], m.sub, m.ses.value)
    requires SessionReportedAtFirstFailure(glob, checks[1..], m)
    ensures SessionReportedAtFirstFailure(glob, checks, m)
  {
    var ses := m.ses.value;
    var k :| 0 <= k < |checks[1..]| && m.dataset == checks[1..][k].ds.name &&
      FirstMissing(checks[1..][k].files, SessionFound(glob, checks[1..][k].ds, m.sub, ses)) == Some(m.file) &&
      forall j :: 0 <= j < k ==> SessionHasFiles(glob, checks[1..][j], m.sub, ses);
    assert checks[1..][k] == checks[k + 1];
    forall j | 0 <= j < k + 1
      ensures SessionHasFiles(glob, checks[j], m.sub, ses)
    {
      if j > 0 {
        assert checks[1..][j - 1] == checks[j];
      }
    }
  }

  function HasSessions(): ((string, seq<string>)) -> bool {
    (e: (string, seq<string>)) => |e.1| > 0
  }

  /** Subjects left without any session are removed and listed. */
  function DropEmpty(d: SubSes): (r: (SubSes, seq<string>))
    ensures r.0 == Filter(d, HasSessions())
    ensures forall sub :: sub in r.1 <==> exists i :: 0 <= i < |d| && d[i].0 == sub && |d[i].1| == 0
    ensures Flatten(r.0) == Flatten(d)
    decreases |d|
  {
    if |d| == 0 then ([], [])
    else
      var rest := DropEmpty(d[1..]);
      assert forall i :: 1 <= i < |d| ==> d[1..][i - 1] == d[i];
      FlattenAppend([d[0]], d[1..]);
      assert [d[0]] + d[1..] == d;
      if |d[0].1| == 0 then
        FlattenAppend([], d[1..]);
        assert Flatten([d[0]]) == [];
        (rest.0, [d[0].0] + rest.1)
      else
        FlattenAppend([d[0]], rest.0);
        ([d[0]] + rest.0, rest.1)
  }

  datatype MultiSesList = MultiSesList(subSes: SubSes, missing: seq<Missing>, subsDeleted: seq<string>)

  /** The datasets' passes over the dictionary, then the removal of subjects
      left with no session. */
  function MultiSesPasses(glob: Glob, checks: seq<Check>, d: SubSes): (r: MultiSesList)
    ensures forall e :: e in r.subSes ==> |e.1| > 0
    ensures |Flatten(r.subSes)| + |r.missing| == |Flatten(d)|
  {
    DatasetPassesKeep(glob, checks, d);
    var passes := DatasetPasses(glob, checks, d);
    var dropped := DropEmpty(passes.0);
    MultiSesList(dropped.0, passes.1, dropped.1)
  }

  /** Multi-session filtering: without `required_files` the dictionary is
      kept as it is; otherwise each subject keeps exactly the sessions that
      have every required file of every unzipped designated dataset, each
      dropped session is reported, and subjects left with no session are
      removed and listed. */
  function FilterMultiSes(glob: Glob, inputDs: seq<InputDs>, required: Option<RequiredFiles>,
                          d: SubSes): (r: Result<MultiSesList, Error>)
    ensures required.None? ==> r == Ok(MultiSesList(d, [], []))
    ensures required.Some? ==> (r.Ok? <==> Checks(inputDs, required.value).Ok?)
    ensures required.Some? && r.Ok? ==> r.value == MultiSesPasses(glob, Checks(inputDs, required.value).value, d)
    ensures required.Some? && r.Ok? ==> forall e :: e in r.value.subSes ==> |e.1| > 0
    ensures r.Ok? ==> |Flatten(r.value.subSes)| + |r.value.missing| == |Flatten(d)|
  {
    match required
    case None => Ok(MultiSesList(d, [], []))
    case Some(req) =>
      var checks :- Checks(inputDs, req);
      Ok(MultiSesPasses(glob, checks, d))
  }

  /** The final list of pairs holds exactly the (subject, session) pairs of
      the initial dictionary whose session has every required file. */
  lemma FinalPairs(glob: Glob, checks: seq<Check>, d: SubSes, sub: string, ses: string)
    ensures (sub, ses) in Flatten(MultiSesPasses(glob, checks, d).subSes) <==>
      exists i :: 0 <= i < |d| && d[i].0 == sub && ses in d[i].1 && KeepSession(glob, checks, sub, ses)
  {
    DatasetPassesKeep(glob, checks, d);
    var passes := DatasetPasses(glob, checks, d);
    var final := MultiSesPasses(glob, checks, d).subSes;
    assert Flatten(final) == Flatten(passes.0);
    FlattenMembership(passes.0, sub, ses);
    if (sub, ses) in Flatten(final) {
      var i :| 0 <= i < |passes.0| && passes.0[i].0 == sub && ses in passes.0[i].1;
      assert KeepSessionTest(glob, checks, sub)(ses);
    }
    if exists i :: 0 <= i < |d| && d[i].0 == sub && ses in d[i].1 && KeepSession(glob, checks, sub, ses) {
      var i :| 0 <= i < |d| && d[i].0 == sub && ses in d[i].1 && KeepSession(glob, checks, sub, ses);
      assert ses in passes.0[i].1;
    }
  }

  /** A subject's sessions all go exactly when none has every required file. */
  lemma NoSessionLeft(glob: Glob, checks: seq<Check>, d: SubSes, i: nat)
    requires i < |d|
    ensures |DatasetPasses(glob, checks, d).0| == |d|
    ensures DatasetPasses(glob, checks, d).0[i].0 == d[i].0
    ensures |DatasetPasses(glob, checks, d).0[i].1| == 0 <==>
      forall j :: 0 <= j < |d[i].1| ==> !KeepSession(glob, checks, d[i].0, d[i].1[j])
  {
    DatasetPassesKeep(glob, checks, d);
    FilterEmpty(d[i].1, KeepSessionTest(glob, checks, d[i].0));
  }

  /** A subject is listed as deleted exactly when none of its sessions has
      every required file. */
  lemma DeletedSubjects(glob: Glob, checks: seq<Check>, d: SubSes, sub: string)
    ensures sub in MultiSesPasses(glob, checks, d).subsDeleted <==>
      exists i :: 0 <= i < |d| && d[i].0 == sub &&
        forall j :: 0 <= j < |d[i].1| ==> !KeepSession(glob, checks, sub, d[i].1[j])
  {
    var passes := DatasetPasses(glob, checks, d);
    var deleted := DropEmpty(passes.0).1;
    assert MultiSesPasses(glob, checks, d).subsDeleted == deleted;
    DatasetPassesKeep(glob, checks, d);
    if sub in deleted {
      var i :| 0 <= i < |passes.0| && passes.0[i].0 == sub && |passes.0[i].1| == 0;
      NoSessionLeft(glob, checks, d, i);
    }
    if exists i :: 0 <= i < |d| && d[i].0 == sub &&
        forall j :: 0 <= j < |d[i].1| ==> !KeepSession(glob, checks, sub, d[i].1[j]) {
      var i :| 0 <= i < |d| && d[i].0 == sub &&
        forall j :: 0 <= j < |d[i].1| ==> !KeepSession(glob, checks, sub, d[i].1[j]);
      NoSessionLeft(glob, checks, d, i);
      assert passes.0[i].0 == sub && |passes.0[i].1| == 0;
    }
  }
}
