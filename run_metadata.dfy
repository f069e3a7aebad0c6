/** Metadata read from a stored run for the commit that stores it (extract_run_metadata.py). */
module RunMetadata {
  import opened Wrappers
  import opened Bisect

  /** extract_test_status: the stored "test_status", or "unknown" without one. */
  function ExtractTestStatus(data: Run): (status: string)
    ensures data.testStatus.Some? ==> status == data.testStatus.value
    ensures data.testStatus.None? ==> status == "unknown"
  {
    data.testStatus.GetOr("unknown")
  }

  /** extract_failed_test_count: the length of "failed_tests", 0 without one. */
  function ExtractFailedTestCount(data: Run): (count: nat)
    ensures data.failedTests.Some? ==> count == |data.failedTests.value|
    ensures count == 0 <==> data.failedTests.None? || data.failedTests.value == []
  {
    |FailedList(data)|
  }

  /** A run stored by create_bisect_data reports "failed" exactly when its failed-test count
      is positive, and "passed" otherwise. */
  lemma StatusMatchesCount(workflowRunId: string, timestamp: string, pythonVersion: string,
                           packages: PackageDiff.Snapshot, failedTests: seq<string>, git: GitMeta)
    ensures var data := CreateBisectData(workflowRunId, timestamp, pythonVersion, packages, failedTests, git);
      && ExtractFailedTestCount(data) == |failedTests|
      && (ExtractTestStatus(data) == "failed" <==> ExtractFailedTestCount(data) > 0)
      && (ExtractTestStatus(data) == "passed" <==> ExtractFailedTestCount(data) == 0)
  {
  }

  /** A candidate file and its modification time. */
  datatype RunFile = RunFile(path: string, mtime: int)

  const NoRunFiles: string := "No run_*.json files found in current directory"

  /** The index `max(run_files, key=mtime)` picks: a largest mtime, the first such in list
      order. */
  function LatestIndex(files: seq<RunFile>): (i: nat)
    requires files != []
    ensures i < |files|
    ensures forall j :: 0 <= j < |files| ==> files[j].mtime <= files[i].mtime
    ensures forall j :: 0 <= j < i ==> files[j].mtime < files[i].mtime
    decreases |files|
  {
    if |files| == 1 then 0
    else
      var i := LatestIndex(files[..|files| - 1]);
      var last := files[|files| - 1];
      assert forall j :: 0 <= j < |files| - 1 ==> files[..|files| - 1][j] == files[j];
      if last.mtime > files[i].mtime then |files| - 1 else i
  }

  /** find_latest_run_file over the files the glob found: an error for none, else the newest. */
  function FindLatestRunFile(files: seq<RunFile>): (r: Result<RunFile>)
    ensures r.Err? <==> files == []
    ensures r.Err? ==> r.error == NoRunFiles
    ensures r.Ok? ==> r.value in files && forall f :: f in files ==> f.mtime <= r.value.mtime
    ensures r.Ok? ==> exists i :: 0 <= i < |files| && files[i] == r.value
                        && forall j :: 0 <= j < i ==> files[j].mtime < r.value.mtime
  {
    if files == [] then Err(NoRunFiles) else Ok(files[LatestIndex(files)])
  }

  /** Of two files with the same, largest mtime, the first listed is chosen. */
  lemma TieGoesToFirst(a: RunFile, b: RunFile, rest: seq<RunFile>)
    requires a.mtime == b.mtime
    requires forall f :: f in rest ==> f.mtime <= a.mtime
    ensures FindLatestRunFile([a, b] + rest) == Ok(a)
  {
    var files := [a, b] + rest;
    assert forall f :: f in files ==> f.mtime <= a.mtime;
    var i := LatestIndex(files);
    assert files[i] in files;
    assert files[0] == a;
    assert i == 0;
  }

  /** The name glob `run_*.json` matches (in one directory). */
  predicate MatchesRunGlob(name: string) {
    |name| >= 9 && name[..4] == "run_" && name[|name| - 5..] == ".json"
  }

  /** Every file create_bisect_data's run is stored under is found by that glob. */
  lemma StoredRunIsFound(workflowRunId: string, timestamp: string, pythonVersion: string,
                         packages: PackageDiff.Snapshot, failedTests: seq<string>, git: GitMeta)
    ensures var name := RunFileName(CreateBisectData(workflowRunId, timestamp, pythonVersion, packages, failedTests, git));
      name.Ok? && MatchesRunGlob(name.value)
  {
    RunFileNameShape(CreateBisectData(workflowRunId, timestamp, pythonVersion, packages, failedTests, git));
  }
}
