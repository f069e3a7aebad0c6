/** Run history, per-test last-good lookup and the bisection comparison (track_packages.py,
    lines 132-150, 208-251 and 369-627). A run is a stored JSON record; the git and file calls
    that fetch the history are outside the model, which takes the history as an input. */
module Bisect {
  import opened Wrappers
  import opened Text
  import opened PackageDiff

  /** The "git" record of a run; an absent key is None. */
  datatype GitMeta = GitMeta(commitHash: Option<string>, commitHashShort: Option<string>, commitMessage: Option<string>)

  /** `{}`: what `.get("git", {})` falls back to. */
  const NoGit: GitMeta := GitMeta(None, None, None)

  /** One stored run; an absent (or, except for "git_info", null) key is None. otherKeys
      records whether the JSON object has keys besides these. */
  datatype Run = Run(
    workflowRunId: Option<string>,
    timestamp: Option<string>,
    pythonVersion: Option<string>,
    packages: Option<Snapshot>,
    failedTests: Option<seq<string>>,
    testStatus: Option<string>,
    git: Option<GitMeta>,
    otherKeys: bool)

  /** An empty JSON object, which Python treats as false. */
  predicate IsEmpty(run: Run) {
    run == Run(None, None, None, None, None, None, None, false)
  }

  /** `run.get("failed_tests", [])`. */
  function FailedList(run: Run): seq<string> {
    run.failedTests.GetOr([])
  }

  // ---------------------------------------------------------------------------
  // Newest-first order
  // ---------------------------------------------------------------------------

  /** The sort key `run.get("timestamp", "")`. */
  function SortKey(run: Run): string {
    run.timestamp.GetOr("")
  }

  /** Run i comes before run j after `sort(key=..., reverse=True)`: a larger timestamp first,
      and equal timestamps in their original order, since the sort is stable. */
  predicate Before(runs: seq<Run>, i: nat, j: nat)
    requires i < |runs| && j < |runs|
  {
    LexLess(SortKey(runs[j]), SortKey(runs[i])) || (SortKey(runs[i]) == SortKey(runs[j]) && i < j)
  }

  lemma BeforeIrreflexive(runs: seq<Run>, i: nat)
    requires i < |runs|
    ensures !Before(runs, i, i)
  {
    LexIrreflexive(SortKey(runs[i]));
  }

  lemma BeforeTotal(runs: seq<Run>, i: nat, j: nat)
    requires i < |runs| && j < |runs| && i != j
    ensures Before(runs, i, j) || Before(runs, j, i)
  {
    LexTotal(SortKey(runs[i]), SortKey(runs[j]));
  }

  lemma BeforeTransitive(runs: seq<Run>, i: nat, j: nat, k: nat)
    requires i < |runs| && j < |runs| && k < |runs|
    requires Before(runs, i, j) && Before(runs, j, k)
    ensures Before(runs, i, k)
  {
    var a, b, c := SortKey(runs[i]), SortKey(runs[j]), SortKey(runs[k]);
    if LexLess(b, a) && LexLess(c, b) {
      LexTransitive(c, b, a);
    }
  }

  predicate InRange(runs: seq<Run>, order: seq<nat>) {
    forall a :: 0 <= a < |order| ==> order[a] < |runs|
  }

  /** order lists run indices in the sorted order. */
  predicate SortedOrder(runs: seq<Run>, order: seq<nat>)
    requires InRange(runs, order)
  {
    forall a, b :: 0 <= a < b < |order| ==> Before(runs, order[a], order[b])
  }

  /** Inserts index k into a sorted order of smaller indices. */
  function Insert(runs: seq<Run>, order: seq<nat>, k: nat): (r: seq<nat>)
    requires InRange(runs, order) && k < |runs|
    ensures |r| == |order| + 1 && InRange(runs, r)
    ensures forall x :: x in r <==> x in order || x == k
  {
    if order == [] then [k]
    else if Before(runs, k, order[0]) then [k] + order
    else [order[0]] + Insert(runs, order[1..], k)
  }

  lemma {:induction false} InsertSorted(runs: seq<Run>, order: seq<nat>, k: nat)
    requires InRange(runs, order) && k < |runs| && SortedOrder(runs, order)
    requires forall x :: x in order ==> x < k
    ensures SortedOrder(runs, Insert(runs, order, k))
  {
    if order != [] {
      var r := Insert(runs, order, k);
      if Before(runs, k, order[0]) {
        forall a, b | 0 <= a < b < |r| ensures Before(runs, r[a], r[b]) {
          if a == 0 && b > 1 {
            BeforeTransitive(runs, k, order[0], order[b - 1]);
          }
        }
      } else {
        assert forall x :: x in order[1..] ==> x in order;
        InsertSorted(runs, order[1..], k);
        assert order[0] in order;
        BeforeTotal(runs, k, order[0]);
        var tail := Insert(runs, order[1..], k);
        forall a, b | 0 <= a < b < |r| ensures Before(runs, r[a], r[b]) {
          if a == 0 {
            assert r[b] == tail[b - 1] && r[b] in tail;
            if r[b] != k {
              var c :| 0 <= c < |order[1..]| && order[1..][c] == r[b];
              assert order[c + 1] == r[b];
            }
          }
        }
      }
    }
  }

  /** The first n runs' indices in newest-first order: what `all_runs.sort(...)` arranges. */
  function NewestFirst(runs: seq<Run>, n: nat): (order: seq<nat>)
    requires n <= |runs|
    ensures |order| == n && InRange(runs, order)
    ensures forall x: int :: x in order <==> 0 <= x < n
  {
    if n == 0 then [] else Insert(runs, NewestFirst(runs, n - 1), n - 1)
  }

  /** The order lists every run exactly once, newest first, ties in original order. */
  lemma {:induction false} NewestFirstSorted(runs: seq<Run>, n: nat)
    requires n <= |runs|
    ensures SortedOrder(runs, NewestFirst(runs, n))
  {
    if n > 0 {
      NewestFirstSorted(runs, n - 1);
      InsertSorted(runs, NewestFirst(runs, n - 1), n - 1);
    }
  }

  /** The runs rearranged in the given order. */
  function Arrange(runs: seq<Run>, order: seq<nat>): (sorted: seq<Run>)
    requires InRange(runs, order)
    ensures |sorted| == |order|
    ensures forall a :: 0 <= a < |order| ==> sorted[a] == runs[order[a]]
  {
    seq(|order|, a requires 0 <= a < |order| => runs[order[a]])
  }

  // ---------------------------------------------------------------------------
  // find_last_successful_run_for_tests
  // ---------------------------------------------------------------------------

  /** The position of the first run, from position a on, whose failed list lacks the test. */
  function FirstLacking(sorted: seq<Run>, test: string, a: nat): (r: Option<nat>)
    requires a <= |sorted|
    ensures r.Some? ==> a <= r.value < |sorted| && test !in FailedList(sorted[r.value])
    ensures r.Some? ==> forall b :: a <= b < r.value ==> test in FailedList(sorted[b])
    ensures r.None? ==> forall b :: a <= b < |sorted| ==> test in FailedList(sorted[b])
    decreases |sorted| - a
  {
    if a == |sorted| then None
    else if test !in FailedList(sorted[a]) then Some(a)
    else FirstLacking(sorted, test, a + 1)
  }

  /** The run a failing test last passed in: the first run, newest first, that does not list
      it as failed; none when the history could not be read. */
  function LastGood(history: Option<seq<Run>>, test: string): Option<Run> {
    match history
    case None => None
    case Some(runs) =>
      var sorted := Arrange(runs, NewestFirst(runs, |runs|));
      match FirstLacking(sorted, test, 0)
      case Some(a) => Some(sorted[a])
      case None => None
  }

  /** The run found is the newest run (ties: the earliest stored) whose failed list lacks the
      test, and there is none exactly when every run lists the test as failed. */
  lemma LastGoodIsNewest(runs: seq<Run>, test: string) returns (i: nat)
    ensures LastGood(Some(runs), test).None? <==> forall j :: 0 <= j < |runs| ==> test in FailedList(runs[j])
    ensures LastGood(Some(runs), test).Some? ==>
      && i < |runs| && runs[i] == LastGood(Some(runs), test).value
      && test !in FailedList(runs[i])
      && forall j :: 0 <= j < |runs| && j != i && test !in FailedList(runs[j]) ==> Before(runs, i, j)
  {
    var order := NewestFirst(runs, |runs|);
    NewestFirstSorted(runs, |runs|);
    var sorted := Arrange(runs, order);
    i := 0;
    match FirstLacking(sorted, test, 0)
    case None =>
      forall j | 0 <= j < |runs| ensures test in FailedList(runs[j]) {
        assert j in order;
        var b :| 0 <= b < |order| && order[b] == j;
        assert sorted[b] == runs[j];
      }
    case Some(a) =>
      i := order[a];
      forall j | 0 <= j < |runs| && j != i && test !in FailedList(runs[j]) ensures Before(runs, i, j) {
        assert j in order;
        var b :| 0 <= b < |order| && order[b] == j;
        assert sorted[b] == runs[j];
        assert b != a;
        assert !(b < a);
      }
  }

  /** find_last_successful_run_for_tests: for each failing test, the newest run that did not
      list it as failed; every test maps to None when the history could not be read. */
  method FindLastSuccessfulRunForTests(history: Option<seq<Run>>, tests: seq<string>)
    returns (lastSuccess: map<string, Option<Run>>)
    ensures forall t :: t in lastSuccess <==> t in tests
    ensures forall t :: t in lastSuccess ==> lastSuccess[t] == LastGood(history, t)
  {
    lastSuccess := map[];
    if history.None? {
      for i := 0 to |tests|
        invariant forall t :: t in lastSuccess <==> t in tests[..i]
        invariant forall t :: t in lastSuccess ==> lastSuccess[t] == None
      {
        assert tests[..i + 1] == tests[..i] + [tests[i]];
        lastSuccess := lastSuccess[tests[i] := None];
      }
      assert tests[..|tests|] == tests;
      return;
    }
    var runs := history.value;
    var allRuns := Arrange(runs, NewestFirst(runs, |runs|));
    for i := 0 to |tests|
      invariant forall t :: t in lastSuccess <==> t in tests[..i]
      invariant forall t :: t in lastSuccess ==> lastSuccess[t] == LastGood(history, t)
    {
      var test := tests[i];
      assert tests[..i + 1] == tests[..i] + [test];
      lastSuccess := lastSuccess[test := None];
      var j := 0;
      while j < |allRuns|
        invariant 0 <= j <= |allRuns|
        invariant FirstLacking(allRuns, test, 0) == FirstLacking(allRuns, test, j)
        invariant lastSuccess[test] == None
      {
        if test !in FailedList(allRuns[j]) {
          lastSuccess := lastSuccess[test := Some(allRuns[j])];
          break;
        }
        j := j + 1;
      }
    }
    assert tests[..|tests|] == tests;
  }

  // ---------------------------------------------------------------------------
  // retrieve_last_successful_run
  // ---------------------------------------------------------------------------

  /** A run that passed and has a non-empty timestamp. */
  predicate Passed(run: Run) {
    run.testStatus == Some("passed") && run.timestamp.Some? && run.timestamp.value != ""
  }

  /** Run i passed, no passed run is newer, and every passed run stored before it is strictly
      older: the first of the newest passed runs. */
  predicate NewestPass(runs: seq<Run>, i: nat) {
    && i < |runs| && Passed(runs[i])
    && (forall j :: 0 <= j < |runs| && Passed(runs[j]) ==> !LexLess(runs[i].timestamp.value, runs[j].timestamp.value))
    && (forall j :: 0 <= j < i && Passed(runs[j]) ==> LexLess(runs[j].timestamp.value, runs[i].timestamp.value))
  }

  /** retrieve_last_successful_run: keeps the passed run with the largest timestamp, replacing
      it only on a strictly larger one. */
  method RetrieveLastSuccessfulRun(history: Option<seq<Run>>) returns (mostRecentSuccess: Option<Run>)
    ensures mostRecentSuccess.None? <==> history.None? || forall i :: 0 <= i < |history.value| ==> !Passed(history.value[i])
    ensures mostRecentSuccess.Some? ==>
      history.Some? && exists i: nat :: NewestPass(history.value, i) && history.value[i] == mostRecentSuccess.value
  {
    if history.None? {
      return None;
    }
    var runs := history.value;
    mostRecentSuccess := None;
    var mostRecentTimestamp: Option<string> := None;
    ghost var best: nat := 0;
    for i := 0 to |runs|
      invariant mostRecentSuccess.None? <==> forall j :: 0 <= j < i ==> !Passed(runs[j])
      invariant mostRecentTimestamp.None? <==> mostRecentSuccess.None?
      invariant mostRecentSuccess.Some? ==>
        && best < i && mostRecentSuccess.value == runs[best] && Passed(runs[best])
        && mostRecentTimestamp == runs[best].timestamp
        && (forall j :: 0 <= j < i && Passed(runs[j]) ==> !LexLess(runs[best].timestamp.value, runs[j].timestamp.value))
        && (forall j :: 0 <= j < best && Passed(runs[j]) ==> LexLess(runs[j].timestamp.value, runs[best].timestamp.value))
    {
      var run := runs[i];
      if run.testStatus == Some("passed") {
        var timestamp := run.timestamp;
        if timestamp.Some? && timestamp.value != ""
          && (mostRecentTimestamp.None? || LexLess(mostRecentTimestamp.value, timestamp.value))
        {
          if mostRecentSuccess.Some? {
            forall j | 0 <= j < i && Passed(runs[j])
              ensures !LexLess(timestamp.value, runs[j].timestamp.value)
              ensures LexLess(runs[j].timestamp.value, timestamp.value)
            {
              var t := runs[j].timestamp.value;
              LexTotal(t, runs[best].timestamp.value);
              if t != runs[best].timestamp.value {
                LexTransitive(t, runs[best].timestamp.value, timestamp.value);
              }
              LexAsymmetric(t, timestamp.value);
            }
          }
          LexIrreflexive(timestamp.value);
          mostRecentTimestamp := timestamp;
          mostRecentSuccess := Some(run);
          best := i;
        } else if Passed(run) {
          LexTotal(mostRecentTimestamp.value, timestamp.value);
          LexAsymmetric(timestamp.value, mostRecentTimestamp.value);
        }
      }
    }
  }

  // ---------------------------------------------------------------------------
  // extract_failed_tests_from_log and create_bisect_data
  // ---------------------------------------------------------------------------

  /** One line of the pytest log: unreadable, or a JSON object with these keys (None when
      absent). */
  datatype LogLine = Malformed | Record(reportType: Option<string>, outcome: Option<string>, nodeid: Option<string>)

  /** A failed test or collect report with a non-empty nodeid. */
  predicate CountsAsFailed(line: LogLine) {
    && line.Record?
    && (line.reportType == Some("TestReport") || line.reportType == Some("CollectReport"))
    && line.outcome == Some("failed")
    && line.nodeid.Some? && line.nodeid.value != ""
  }

  /** The nodeids of the lines that count as failed, in log order. */
  function FailedNodeIds(lines: seq<LogLine>): (ids: seq<string>)
    ensures |ids| <= |lines|
    decreases |lines|
  {
    if lines == [] then []
    else
      var last := lines[|lines| - 1];
      FailedNodeIds(lines[..|lines| - 1]) + (if CountsAsFailed(last) then [last.nodeid.value] else [])
  }

  /** A nodeid is extracted exactly when some line with it counts as failed. */
  lemma {:induction false} FailedNodeIdsExact(lines: seq<LogLine>)
    ensures forall id :: id in FailedNodeIds(lines) <==>
      exists i :: 0 <= i < |lines| && CountsAsFailed(lines[i]) && lines[i].nodeid.value == id
    decreases |lines|
  {
    if lines != [] {
      var init := lines[..|lines| - 1];
      FailedNodeIdsExact(init);
      assert forall i :: 0 <= i < |init| ==> init[i] == lines[i];
    }
  }

  /** The ids of a log are those of its first part followed by those of the rest, so the
      ids keep the log's order and each failing line contributes exactly once. */
  lemma {:induction false} FailedNodeIdsAppend(a: seq<LogLine>, b: seq<LogLine>)
    ensures FailedNodeIds(a + b) == FailedNodeIds(a) + FailedNodeIds(b)
    decreases |b|
  {
    if b == [] {
      assert a + b == a;
    } else {
      var b' := b[..|b| - 1];
      var l := b[|b| - 1];
      assert (a + b)[..|a + b| - 1] == a + b';
      FailedNodeIdsAppend(a, b');
    }
  }

  /** A single line contributes its nodeid exactly when it counts as failed. */
  lemma FailedNodeIdsOne(l: LogLine)
    ensures FailedNodeIds([l]) == if CountsAsFailed(l) then [l.nodeid.value] else []
  {
    assert [l][..0] == [];
  }

  /** A collection failure outside any test file has an empty nodeid and is not counted. */
  lemma CollectionFailureNotCounted(lines: seq<LogLine>)
    ensures FailedNodeIds(lines + [Record(Some("CollectReport"), Some("failed"), Some(""))]) == FailedNodeIds(lines)
  {
    var l := lines + [Record(Some("CollectReport"), Some("failed"), Some(""))];
    assert l[..|l| - 1] == lines;
  }

  /** extract_failed_tests_from_log: a missing log (None) gives no tests; malformed lines are
      skipped. */
  method ExtractFailedTestsFromLog(log: Option<seq<LogLine>>) returns (failedTests: seq<string>)
    ensures failedTests == if log.None? then [] else FailedNodeIds(log.value)
  {
    failedTests := [];
    if log.None? {
      return;
    }
    var lines := log.value;
    for i := 0 to |lines|
      invariant failedTests == FailedNodeIds(lines[..i])
    {
      assert lines[..i + 1][..i] == lines[..i];
      var line := lines[i];
      if line.Record? {
        if (line.reportType == Some("TestReport") || line.reportType == Some("CollectReport"))
          && line.outcome == Some("failed") && line.nodeid.Some? && line.nodeid.value != ""
        {
          failedTests := failedTests + [line.nodeid.value];
        }
      }
    }
    assert lines[..|lines|] == lines;
  }

  /** The "test_status" rule: "failed" exactly when some test failed. */
  function TestStatus(failedTests: seq<string>): (status: string)
    ensures status == "failed" <==> failedTests != []
    ensures status == "passed" <==> failedTests == []
  {
    if failedTests != [] then "failed" else "passed"
  }

  /** create_bisect_data, with the environment, clock and git answers given as arguments. */
  function CreateBisectData(workflowRunId: string, timestamp: string, pythonVersion: string,
                            packages: Snapshot, failedTests: seq<string>, git: GitMeta): (run: Run)
    ensures run.testStatus == Some(TestStatus(failedTests))
    ensures FailedList(run) == failedTests
    ensures Passed(run) <==> failedTests == [] && timestamp != ""
    ensures !IsEmpty(run)
  {
    Run(Some(workflowRunId), Some(timestamp), Some(pythonVersion), Some(packages), Some(failedTests),
        Some(TestStatus(failedTests)), Some(git), false)
  }

  /** The KeyError Python raises for a missing key. */
  function KeyError(key: string): string {
    "KeyError: '" + key + "'"
  }

  /** The name a run is stored under: `run_{id}_{timestamp}.json`, the timestamp with ':'
      turned into '-' and 'Z' removed. */
  function RunFileName(run: Run): Result<string> {
    if run.workflowRunId.None? then Err(KeyError("workflow_run_id"))
    else if run.timestamp.None? then Err(KeyError("timestamp"))
    else
      var stamp := DeleteChar(ReplaceChar(run.timestamp.value, ':', '-'), 'Z');
      Ok("run_" + run.workflowRunId.value + "_" + stamp + ".json")
  }

  /** A run without an id or a timestamp has no file name. Otherwise the name is `run_`, the
      id, `_`, a stamp and `.json`; the stamp keeps every character of the timestamp except ':'
      and 'Z', and adds only '-'. */
  lemma RunFileNameShape(run: Run)
    ensures RunFileName(run).Err? <==> run.workflowRunId.None? || run.timestamp.None?
    ensures RunFileName(run).Ok? ==>
      var r := RunFileName(run).value;
      var id := run.workflowRunId.value;
      var t := run.timestamp.value;
      && 10 + |id| <= |r|
      && r[..4] == "run_"
      && r[4..4 + |id|] == id
      && r[|r| - 5..] == ".json"
      && var stamp := r[5 + |id|..|r| - 5];
      && stamp == DeleteChar(ReplaceChar(t, ':', '-'), 'Z')
      && ':' !in stamp && 'Z' !in stamp
      && (forall c :: c in stamp ==> c in t || c == '-')
      && (forall c :: c in t && c != ':' && c != 'Z' ==> c in stamp)
  {
    if run.workflowRunId.Some? && run.timestamp.Some? {
      var id := run.workflowRunId.value;
      var t := run.timestamp.value;
      var u := ReplaceChar(t, ':', '-');
      var stamp := DeleteChar(u, 'Z');
      var name := "run_" + id + "_" + stamp + ".json";
      assert RunFileName(run) == Ok(name);
      NameParts(id, stamp);
      ColonsReplaced(t, u);
    }
  }

  /** The parts of `run_{id}_{stamp}.json` sit at fixed offsets. */
  lemma NameParts(id: string, stamp: string)
    ensures var name := "run_" + id + "_" + stamp + ".json";
      && 10 + |id| <= |name|
      && name[..4] == "run_"
      && name[4..4 + |id|] == id
      && name[|name| - 5..] == ".json"
      && name[5 + |id|..|name| - 5] == stamp
  {
  }

  /** Replacing ':' by '-' keeps every other character and adds only '-'. */
  lemma ColonsReplaced(t: string, u: string)
    requires u == ReplaceChar(t, ':', '-')
    ensures forall c :: c in u ==> c in t || c == '-'
    ensures forall c :: c in t && c != ':' ==> c in u
  {
    forall c | c in u ensures c in t || c == '-' {
      var i :| 0 <= i < |u| && u[i] == c;
    }
    forall c | c in t && c != ':' ensures c in u {
      var i :| 0 <= i < |t| && t[i] == c;
      assert u[i] == c;
    }
  }

  // ---------------------------------------------------------------------------
  // format_bisect_comparison
  // ---------------------------------------------------------------------------

  /** A commit message cut to 60 characters, with "..." added only when it was longer. */
  function ShortMessage(message: string): (r: string)
    ensures |r| <= 63
    ensures |message| <= 60 ==> r == message
    ensures |message| > 60 ==> |r| == 63 && r[..60] == message[..60] && r[60..] == "..."
  {
    Take(message, 60) + (if |message| > 60 then "..." else "")
  }

  /** The line naming the run a test last passed in; reading a missing key raises. */
  function LastPassedLine(run: Run): (r: Result<string>)
    ensures r.Err? <==> run.workflowRunId.None? || run.timestamp.None?
  {
    if run.workflowRunId.None? then Err(KeyError("workflow_run_id"))
    else if run.timestamp.None? then Err(KeyError("timestamp"))
    else Ok("- Last passed in run #" + run.workflowRunId.value + " on " + run.timestamp.value)
  }

  const PackageHeading: string := "### Package changes since last pass"
  const CodeHeading: string := "### Code changes since last pass"
  const NoRunLines: seq<string> := ["### Analysis", "- No recent successful run found for this test"]

  /** The code-change lines of a section: both commits when the hashes differ (an absent hash
      on both sides counts as equal). */
  function CodeChangeLines(current: GitMeta, last: GitMeta, lastRun: Run): (r: Result<seq<string>>)
    ensures r.Err? <==> LastPassedLine(lastRun).Err?
    ensures r.Ok? ==> |r.value| == (if current.commitHash != last.commitHash then 4 else 3)
    ensures r.Ok? ==> r.value[0] == CodeHeading && r.value[|r.value| - 1] == LastPassedLine(lastRun).value
  {
    var passed :- LastPassedLine(lastRun);
    if current.commitHash != last.commitHash then
      var prevCommit := last.commitHashShort.GetOr("unknown");
      var currCommit := current.commitHashShort.GetOr("unknown");
      var prevMessage := ShortMessage(last.commitMessage.GetOr(""));
      var currMessage := ShortMessage(current.commitMessage.GetOr(""));
      Ok([CodeHeading,
          "- " + prevCommit + " (" + prevMessage + ")",
          "- \U{2192} " + currCommit + " (" + currMessage + ")",
          passed])
    else
      Ok([CodeHeading, "- No code changes detected", passed])
  }

  /** The lines of one test's section after its "## test" heading. */
  function SectionBody(lastSuccess: Option<Run>, currentPackages: Snapshot, currentGit: GitMeta): Result<seq<string>> {
    if lastSuccess.None? || IsEmpty(lastSuccess.value) then Ok(NoRunLines)
    else
      var last := lastSuccess.value;
      var lastPackages := last.packages.GetOr(map[]);
      var changes :- PackageChanges(AllPackages(currentPackages, lastPackages), currentPackages, lastPackages);
      var codeLines :- CodeChangeLines(currentGit, last.git.GetOr(NoGit), last);
      Ok(PackageLines(changes) + codeLines)
  }

  /** The package part of a section: its heading, then the change lines or a line saying there
      are none. */
  function PackageLines(changes: seq<string>): seq<string> {
    [PackageHeading] + (if changes != [] then changes else ["- No package changes detected"])
  }

  /** One test's section: its heading and body, newline-joined. */
  function TestSection(test: string, lastSuccess: Option<Run>, currentPackages: Snapshot, currentGit: GitMeta): Result<string> {
    var body :- SectionBody(lastSuccess, currentPackages, currentGit);
    Ok(Join(["## " + test] + body, "\n"))
  }

  /** The sections of the given tests, in order, stopping at the first error. */
  function Sections(tests: seq<string>, history: Option<seq<Run>>, currentPackages: Snapshot, currentGit: GitMeta)
    : (r: Result<seq<string>>)
    ensures r.Ok? ==> |r.value| == |tests|
    ensures r.Ok? ==> forall i :: 0 <= i < |tests| ==>
      TestSection(tests[i], LastGood(history, tests[i]), currentPackages, currentGit) == Ok(r.value[i])
    ensures r.Err? <==> exists i :: 0 <= i < |tests| && SectionFails(tests[i], history, currentPackages, currentGit)
    decreases |tests|
  {
    assert forall i :: 1 <= i < |tests| ==> tests[i] == tests[1..][i - 1];
    if tests == [] then Ok([])
    else
      var first :- TestSection(tests[0], LastGood(history, tests[0]), currentPackages, currentGit);
      var rest :- Sections(tests[1..], history, currentPackages, currentGit);
      Ok([first] + rest)
  }

  /** Building the section of one test raises. */
  predicate SectionFails(test: string, history: Option<seq<Run>>, currentPackages: Snapshot, currentGit: GitMeta) {
    TestSection(test, LastGood(history, test), currentPackages, currentGit).Err?
  }

  /** What format_bisect_comparison returns; the previous run it is given plays no part. */
  function BisectComparison(current: Run, history: Option<seq<Run>>): Result<Option<string>> {
    var failedTests := FailedList(current);
    if failedTests == [] then Ok(None)
    else if current.packages.None? then Err(KeyError("packages"))
    else
      var sections :- Sections(failedTests, history, current.packages.value, current.git.GetOr(NoGit));
      Ok(Some(Join(sections, "\n\n") + "\n\n"))
  }

  /** A test with no last-good run gets the fixed analysis section. */
  lemma SectionWithoutRun(test: string, currentPackages: Snapshot, currentGit: GitMeta)
    ensures TestSection(test, None, currentPackages, currentGit)
      == Ok("## " + test + "\n" + "### Analysis" + "\n" + "- No recent successful run found for this test")
  {
    var parts := ["## " + test] + NoRunLines;
    var analysis := "### Analysis";
    var none := "- No recent successful run found for this test";
    assert parts[1..][1..] == [none];
    assert Join(parts[1..], "\n") == analysis + "\n" + none;
    assert Join(parts, "\n") == "## " + test + "\n" + (analysis + "\n" + none);
    assert "## " + test + "\n" + (analysis + "\n" + none) == "## " + test + "\n" + analysis + "\n" + none;
  }

  /** With a last-good run whose packages and commit match the current run's, the section says
      that nothing changed. */
  lemma SectionWithoutChanges(test: string, last: Run, currentPackages: Snapshot, currentGit: GitMeta)
    requires !IsEmpty(last) && last.packages == Some(currentPackages) && Readable(currentPackages)
    requires last.git.GetOr(NoGit).commitHash == currentGit.commitHash
    requires last.workflowRunId.Some? && last.timestamp.Some?
    ensures SectionBody(Some(last), currentPackages, currentGit)
      == Ok([PackageHeading, "- No package changes detected"]
            + [CodeHeading, "- No code changes detected", LastPassedLine(last).value])
  {
    IdenticalSnapshots(AllPackages(currentPackages, currentPackages), currentPackages);
    SameCommit(currentGit, last.git.GetOr(NoGit), last);
    assert PackageLines([]) == [PackageHeading, "- No package changes detected"];
  }

  /** Equal commit hashes give the "no code changes" lines. */
  lemma SameCommit(current: GitMeta, lastGit: GitMeta, last: Run)
    requires current.commitHash == lastGit.commitHash
    requires last.workflowRunId.Some? && last.timestamp.Some?
    ensures CodeChangeLines(current, lastGit, last)
      == Ok([CodeHeading, "- No code changes detected", LastPassedLine(last).value])
  {
  }

  /** Different commit hashes give both commits, each as its short hash ("unknown" when
      absent) and its message cut by ShortMessage (an absent message reads as ""), the older
      first, then the last-passed line. */
  lemma CommitChanged(current: GitMeta, lastGit: GitMeta, last: Run)
    requires current.commitHash != lastGit.commitHash
    requires last.workflowRunId.Some? && last.timestamp.Some?
    ensures CodeChangeLines(current, lastGit, last)
      == Ok([CodeHeading,
             "- " + lastGit.commitHashShort.GetOr("unknown") + " (" + ShortMessage(lastGit.commitMessage.GetOr("")) + ")",
             "- \U{2192} " + current.commitHashShort.GetOr("unknown") + " (" + ShortMessage(current.commitMessage.GetOr("")) + ")",
             LastPassedLine(last).value])
  {
  }

  /** The report is empty exactly when the current run has no failing tests; otherwise it
      holds one section per failing test, the first one leading, and ends in a blank line. */
  lemma ComparisonShape(current: Run, history: Option<seq<Run>>)
    ensures BisectComparison(current, history) == Ok(None) <==> FailedList(current) == []
    ensures BisectComparison(current, history).Ok? && FailedList(current) != [] ==>
      var s := BisectComparison(current, history).value.value;
      var first := "## " + FailedList(current)[0];
      && |s| >= |first| + 2
      && s[..|first|] == first
      && s[|s| - 2..] == "\n\n"
  {
    var failedTests := FailedList(current);
    if BisectComparison(current, history).Ok? && failedTests != [] {
      var pkgs := current.packages.value;
      var git := current.git.GetOr(NoGit);
      var sections := Sections(failedTests, history, pkgs, git).value;
      SectionsHead(failedTests, history, pkgs, git);
      TestSectionStart(failedTests[0], LastGood(history, failedTests[0]), pkgs, git);
      JoinedSections(sections, "## " + failedTests[0]);
    }
  }

  /** The first section rendered is the first test's. */
  lemma SectionsHead(tests: seq<string>, history: Option<seq<Run>>, pkgs: Snapshot, git: GitMeta)
    requires tests != [] && Sections(tests, history, pkgs, git).Ok?
    ensures TestSection(tests[0], LastGood(history, tests[0]), pkgs, git).Ok?
    ensures Sections(tests, history, pkgs, git).value[0] == TestSection(tests[0], LastGood(history, tests[0]), pkgs, git).value
  {
  }

  /** A section starts with its "## test" heading. */
  lemma TestSectionStart(test: string, lastSuccess: Option<Run>, pkgs: Snapshot, git: GitMeta)
    requires TestSection(test, lastSuccess, pkgs, git).Ok?
    ensures var s := TestSection(test, lastSuccess, pkgs, git).value;
      |s| >= |"## " + test| && s[..|"## " + test|] == "## " + test
  {
    var body := SectionBody(lastSuccess, pkgs, git).value;
    JoinStartsWith(["## " + test] + body, "\n");
  }

  /** Sections joined by blank lines and followed by one start with the first section's
      heading and end in a blank line. */
  lemma JoinedSections(sections: seq<string>, first: string)
    requires sections != [] && |sections[0]| >= |first| && sections[0][..|first|] == first
    ensures var s := Join(sections, "\n\n") + "\n\n";
      |s| >= |first| + 2 && s[..|first|] == first && s[|s| - 2..] == "\n\n"
  {
    JoinStartsWith(sections, "\n\n");
  }

  /** A join starts with its first part. */
  lemma JoinStartsWith(parts: seq<string>, sep: string)
    requires parts != []
    ensures |Join(parts, sep)| >= |parts[0]| && Join(parts, sep)[..|parts[0]|] == parts[0]
  {
  }

  /** The body of format_bisect_comparison's loop: builds one test's section line by line. */
  method BuildTestSection(test: string, lastSuccess: Option<Run>, currentPackages: Snapshot, currentGit: GitMeta)
    returns (r: Result<string>)
    ensures r == TestSection(test, lastSuccess, currentPackages, currentGit)
  {
    var testSection := ["## " + test];
    if lastSuccess.Some? && !IsEmpty(lastSuccess.value) {
      var last := lastSuccess.value;
      var lastPackages := last.packages.GetOr(map[]);
      var packageChanges := GetPackageChanges(currentPackages, lastPackages);
      ghost var code := CodeChangeLines(currentGit, last.git.GetOr(NoGit), last);
      SectionWithRun(test, last, currentPackages, currentGit, packageChanges, code);
      if packageChanges.Err? {
        return Err(packageChanges.error);
      }
      if packageChanges.value != [] {
        testSection := testSection + [PackageHeading];
        testSection := testSection + packageChanges.value;
      } else {
        testSection := testSection + [PackageHeading];
        testSection := testSection + ["- No package changes detected"];
      }
      var codeLines := CodeChangeLines(currentGit, last.git.GetOr(NoGit), last);
      if codeLines.Err? {
        return Err(codeLines.error);
      }
      SectionLines(testSection, "## " + test, packageChanges.value, codeLines.value);
      testSection := testSection + codeLines.value;
    } else {
      testSection := testSection + NoRunLines;
    }
    return Ok(Join(testSection, "\n"));
  }

  /** A section with a last-good run: the package lines, then the code lines, or the first
      error among them. */
  lemma SectionWithRun(test: string, last: Run, currentPackages: Snapshot, currentGit: GitMeta,
                       changes: Result<seq<string>>, code: Result<seq<string>>)
    requires !IsEmpty(last)
    requires changes == PackageChanges(AllPackages(currentPackages, last.packages.GetOr(map[])),
                                       currentPackages, last.packages.GetOr(map[]))
    requires code == CodeChangeLines(currentGit, last.git.GetOr(NoGit), last)
    ensures TestSection(test, Some(last), currentPackages, currentGit)
      == if changes.Err? then Err(changes.error)
         else if code.Err? then Err(code.error)
         else Ok(Join(["## " + test] + (PackageLines(changes.value) + code.value), "\n"))
  {
  }

  /** The lines appended one group at a time are the heading, the package lines and the code
      lines. */
  lemma SectionLines(built: seq<string>, heading: string, changes: seq<string>, code: seq<string>)
    requires built == [heading] + [PackageHeading] + (if changes != [] then changes else ["- No package changes detected"])
    ensures built + code == [heading] + (PackageLines(changes) + code)
  {
  }

  /** format_bisect_comparison: one section per failing test, in order. */
  method FormatBisectComparison(current: Run, previous: Option<Run>, history: Option<seq<Run>>)
    returns (r: Result<Option<string>>)
    ensures r == BisectComparison(current, history)
  {
    var failedTests := FailedList(current);
    if failedTests == [] {
      return Ok(None);
    }
    var testLastSuccess := FindLastSuccessfulRunForTests(history, failedTests);
    if current.packages.None? {
      return Err(KeyError("packages"));
    }
    var currentPackages := current.packages.value;
    var currentGit := current.git.GetOr(NoGit);
    var testSections: seq<string> := [];
    SectionsFrom(failedTests, history, currentPackages, currentGit);
    for i := 0 to |failedTests|
      invariant Sections(failedTests, history, currentPackages, currentGit)
        == Prepend(testSections, Sections(failedTests[i..], history, currentPackages, currentGit))
    {
      var test := failedTests[i];
      assert test in testLastSuccess by { assert failedTests[i] in failedTests; }
      var testSection := BuildTestSection(test, testLastSuccess[test], currentPackages, currentGit);
      SectionsStep(failedTests, i, history, currentPackages, currentGit, testSections, testSection);
      if testSection.Err? {
        return Err(testSection.error);
      }
      testSections := testSections + [testSection.value];
    }
    SectionsDone(failedTests, history, currentPackages, currentGit, testSections);
    return Ok(Some(Join(testSections, "\n\n") + "\n\n"));
  }

  /** Before the loop nothing has been rendered. */
  lemma SectionsFrom(tests: seq<string>, history: Option<seq<Run>>, pkgs: Snapshot, git: GitMeta)
    ensures Sections(tests, history, pkgs, git) == Prepend([], Sections(tests[0..], history, pkgs, git))
  {
    assert tests[0..] == tests;
    PrependAssoc([], [], Sections(tests, history, pkgs, git));
  }

  /** Rendering test i either stops at its error or moves it from the rest to the rendered
      sections. */
  lemma SectionsStep(tests: seq<string>, i: nat, history: Option<seq<Run>>, pkgs: Snapshot, git: GitMeta,
                     done: seq<string>, section: Result<string>)
    requires i < |tests|
    requires Sections(tests, history, pkgs, git) == Prepend(done, Sections(tests[i..], history, pkgs, git))
    requires section == TestSection(tests[i], LastGood(history, tests[i]), pkgs, git)
    ensures section.Err? ==> Sections(tests, history, pkgs, git) == Err(section.error)
    ensures section.Ok? ==>
      Sections(tests, history, pkgs, git) == Prepend(done + [section.value], Sections(tests[i + 1..], history, pkgs, git))
  {
    assert tests[i..][1..] == tests[i + 1..];
    if section.Ok? {
      PrependAssoc(done, [section.value], Sections(tests[i + 1..], history, pkgs, git));
    }
  }

  /** After the last test every section has been rendered. */
  lemma SectionsDone(tests: seq<string>, history: Option<seq<Run>>, pkgs: Snapshot, git: GitMeta, done: seq<string>)
    requires Sections(tests, history, pkgs, git) == Prepend(done, Sections(tests[|tests|..], history, pkgs, git))
    ensures Sections(tests, history, pkgs, git) == Ok(done)
  {
    assert tests[|tests|..] == [];
    assert done + [] == done;
  }
}
