# issue-from-pytest-log-action in Dafny

This project models the text and list logic of issue-from-pytest-log-action. That GitHub Action
turns a pytest report log into the body of a GitHub issue. It also keeps a history of test runs, so
that each failing test can be set against the last run in which it passed.

The model has four parts:

- **Failure-report compressor** (`parse_logs.py`), in `parse_logs.dfy` and `compress.dfy`.
  - Records are parsed from the log. ANSI escape sequences are stripped and node ids
    (`path::name[variant]`) are parsed.
  - Failed records become one-line reports, or a single "test collection session" error.
  - The report listing is fitted under 65535 characters by a cascade: full listing, then variant
    merge, then fractional truncation, then a "N failing tests" summary.
- **Package diff and bisection formatter** (`track_packages.py`), in `packages.dfy` and
  `bisect.dfy`.
  - Version records come in two forms: a legacy string, or a rich `{version, git_info}` record.
  - Compare links are built for known packages.
  - Two package snapshots are diffed in sorted key order.
  - Each failing test is matched with the newest stored run that did not list it as failed.
  - The per-test markdown sections are rendered.
- **Git-hash heuristic** (`capture_versions.py`), in `git_hash.dfy`.
- **Run metadata** (`extract_run_metadata.py`), in `run_metadata.dfy`.

`wrappers.dfy` holds Option and Result. `text.dfy` holds the Python string operations the model
needs:
- `str.join`, `lstrip`, `removeprefix`, `replace`;
- the last line of a string;
- `<` on strings, with its order laws;
- `sorted` over a set of strings.

The source's loops are methods, each proved equal to a specification function:
- `MergeVariants`, `BucketReports`, `Truncate` and `CompressedReport`;
- `ChangesFor`, `FindLastSuccessfulRunForTests` and `RetrieveLastSuccessfulRun`;
- `ExtractFailedTestsFromLog`, `BuildTestSection` and `FormatBisectComparison`.

Lemmas then state what the source promises about those functions.

Python's exceptions are `Err` values. Where the source writes the message itself, the `Err`
carries that text: "unknown test id: …", "unknown report type: …", the `AttributeError` of `.get`
on a non-mapping. A record without an outcome makes pytest's own report constructor raise a
`TypeError`; the model gives it the short message "missing outcome".

The history of runs, the log lines and the file list are inputs. They are not fetched with git or
read from disk.

Where the code and the documented intent differ, the model follows the code:
- The `nodeid` regex's `.` does not match a newline, so an id containing a newline is rejected.
- The node-id round trip needs a file path that does not end in `:`. For `a:` the first `::` of
  `a:::n` comes one character earlier.
- A report without a name but with a variant, or a merged group without a name, is written with
  the text `None`, as the f-strings print it.

## Model

| member | source | states |
|---|---|---|
| ParseLogs.CsiLength | src/issue_from_pytest_log_action/parse_logs.py:15-31 | A CSI match is at least 3 characters long, starts with ESC `[` and ends in a final byte 0x40-0x7E. |
| ParseLogs.EscapeLength | src/issue_from_pytest_log_action/parse_logs.py:15-31 | A removed escape starts with ESC and is at least two characters long; CSI is tried before the two-byte Fe form. |
| ParseLogs.StripAnsi | src/issue_from_pytest_log_action/parse_logs.py:34-36 | Stripping never lengthens the text. |
| ParseLogs.StripAnsiEscape | src/issue_from_pytest_log_action/parse_logs.py:15-36 | Every complete `ESC [ P* I* F` sequence and every `ESC` + Fe byte is removed whole, whatever follows it. |
| ParseLogs.StripAnsiPlainPrefix | src/issue_from_pytest_log_action/parse_logs.py:34-36 | Text with no ESC passes through unchanged in front of whatever follows. |
| ParseLogs.StripAnsiNoEscape | src/issue_from_pytest_log_action/parse_logs.py:34-36 | Text with no ESC is left unchanged. |
| ParseLogs.StripAnsiOnlyEscapes | src/issue_from_pytest_log_action/parse_logs.py:15-36 | A string made only of escape sequences strips to "". |
| ParseLogs.StripAnsiEmbedded | src/issue_from_pytest_log_action/parse_logs.py:15-36 | An escape between two plain texts disappears: `a + esc + b` strips to `a + b`. |
| ParseLogs.StripAnsiIncompleteCsi | src/issue_from_pytest_log_action/parse_logs.py:15-36 | `ESC [` followed by a run of parameter bytes p, then intermediate bytes i, then a byte that is none of the three kinds (or the end) strips to p + i and the stripped rest: the `ESC [` goes as a two-character Fe escape, since `[` is in the Fe range, and the runs are kept. |
| ParseLogs.MatchNameSound | src/issue_from_pytest_log_action/parse_logs.py:94 | The lazy name group and the optional variant group split the rest exactly, into a non-empty name and a non-empty variant without newlines. |
| ParseLogs.MatchFromSound | src/issue_from_pytest_log_action/parse_logs.py:94 | A match of the lazy filepath group is a full match whose filepath is followed by `::`. |
| ParseLogs.ParseNodeId | src/issue_from_pytest_log_action/parse_logs.py:94-102 | Parsing succeeds iff the id has no newline and has a `::` with text on both sides. The parts re-assemble to the id, with a non-empty filepath and a name. Otherwise the error is "unknown test id: " + id. |
| ParseLogs.MatchNameFinds | src/issue_from_pytest_log_action/parse_logs.py:94-98 | A newline-free rest always matches the name group. |
| ParseLogs.MatchFromFinds | src/issue_from_pytest_log_action/parse_logs.py:94-98 | A newline-free id with an inner `::` always matches. |
| ParseLogs.MatchFromSkipsFilepath | src/issue_from_pytest_log_action/parse_logs.py:94 | The lazy filepath group moves past every position of a filepath that holds no `::`. |
| ParseLogs.MatchNameSkipsName | src/issue_from_pytest_log_action/parse_logs.py:94 | The lazy name group moves past every position of a name without `[`. |
| ParseLogs.ParseNodeIdRoundTrip | src/issue_from_pytest_log_action/parse_logs.py:94-102 | `f::n[v]` parses to (f, n, v) and `f::n` to (f, n, None). This holds for a filepath without `::` not ending in `:`, a name without `[` (it may contain `::`), and a non-empty variant. |
| ParseLogs.ParseRecord | src/issue_from_pytest_log_action/parse_logs.py:80-91 | An unknown `$report_type` gives "unknown report type: " + tag. Otherwise the record kind matches the tag, and the session records default their outcome to "status". |
| ParseLogs.NewReport | src/issue_from_pytest_log_action/parse_logs.py:63-71 | A report keeps its filepath, name and variant, and its message is ANSI-stripped. A message without ESC is kept as is. |
| ParseLogs.CollectMessage | src/issue_from_pytest_log_action/parse_logs.py:135-138 | A text long representation gives LineMessage of its last line, a suffix of the text without newline. A crash report gives its crash message. |
| ParseLogs.LineMessage | src/issue_from_pytest_log_action/parse_logs.py:136 | With e = 1 when the line starts with `E` and 0 otherwise, the message is a suffix of the line at most `len - e` long. Everything cut between position e and the message is whitespace, and the message does not start with whitespace: `removeprefix("E").lstrip()`. |
| ParseLogs.Preformat | src/issue_from_pytest_log_action/parse_logs.py:105-139 | An empty collect nodeid gives `CollectionError("test collection session", str(longrepr))`. A collect nodeid without `::` gives a filepath-only report. A test report, or a collect report whose nodeid has `::`, succeeds iff its nodeid parses. A report's parts rebuild the record's nodeid, and its message is the ANSI-stripped long representation (test) or CollectMessage (collect). Session records fail. |
| ParseLogs.FormatSummary | src/issue_from_pytest_log_action/parse_logs.py:142-148 | The line is the node id written back (`f::n[v]`, `f::n` or `f`), then ": " and the message. |
| ParseLogs.SummaryStartsWithNodeId | src/issue_from_pytest_log_action/parse_logs.py:105-148 | A failed record's summary line is exactly its own nodeid, ": " and the message. |
| ParseLogs.FormatReportLayout | src/issue_from_pytest_log_action/parse_logs.py:151-165 | The listing is the `<details><summary>Python v Test Summary</summary>` header and a fence, then the newline-joined lines, then the closing fence and `</details>`, with the exact length. |
| ParseLogs.FormatCollectionErrorLayout | src/issue_from_pytest_log_action/parse_logs.py:230-242 | The page is the same header, then `name failed:` and the full traceback in a fence, with no length limit. |
| ReportCompressor.SummaryLines | src/issue_from_pytest_log_action/parse_logs.py:217 | There is one summary line per report, in order. |
| ReportCompressor.FirstSeenKeys | src/issue_from_pytest_log_action/parse_logs.py:181-183 | The group keys (filepath, name, message) are distinct, and there are no more of them than reports. |
| ReportCompressor.FirstSeenKeysExact | src/issue_from_pytest_log_action/parse_logs.py:181-183 | Every report's key is listed, and every listed key belongs to some report. |
| ReportCompressor.FirstSeenOrder | src/issue_from_pytest_log_action/parse_logs.py:181-183 | The keys are in first-seen order: for i < j, key i occurs in the reports before the first occurrence of key j. |
| ReportCompressor.Bucket | src/issue_from_pytest_log_action/parse_logs.py:181 | A group is no larger than the report list. |
| ReportCompressor.BucketExact | src/issue_from_pytest_log_action/parse_logs.py:181 | A group holds exactly the reports with its key, and is non-empty iff its key is listed. |
| ReportCompressor.BucketCount | src/issue_from_pytest_log_action/parse_logs.py:169-181 | A group holds every report with its key exactly as many times as the list does and nothing else, so `len(group)` counts the reports with that key. |
| ReportCompressor.BucketAppend | src/issue_from_pytest_log_action/parse_logs.py:181 | The group of a concatenation is the two groups joined: reports keep their list order inside a group. |
| ReportCompressor.BucketOne | src/issue_from_pytest_log_action/parse_logs.py:181 | A single report forms its own key's group and no other. |
| ReportCompressor.MergedLines | src/issue_from_pytest_log_action/parse_logs.py:168-183 | There is one merged line per group, and never more lines than reports. |
| ReportCompressor.BucketReports | src/issue_from_pytest_log_action/parse_logs.py:181-183 | Filling the bucket map gives the first-seen keys, and under each key exactly its group. |
| ReportCompressor.MergeVariants | src/issue_from_pytest_log_action/parse_logs.py:168-186 | The result is the report template around the merged lines; `max_chars` plays no part. |
| ReportCompressor.MergeTwoVariants | src/issue_from_pytest_log_action/parse_logs.py:173-174 | Two reports with one key merge into a single `f::n[2 failing variants]: m` line. |
| ReportCompressor.MergeDistinctIsListing | src/issue_from_pytest_log_action/parse_logs.py:168-183 | With all keys distinct and all names present, merging gives back the plain summary lines. |
| ReportCompressor.DistinctKeys | src/issue_from_pytest_log_action/parse_logs.py:181-183 | With distinct keys, each report is its own group, in order. |
| ReportCompressor.MergeNamelessReport | src/issue_from_pytest_log_action/parse_logs.py:174-179 | A nameless, variantless report merges to `f::None: m`, since no branch handles a missing name. |
| ReportCompressor.KeptCount | src/issue_from_pytest_log_action/parse_logs.py:194 | The truncated count never exceeds the number of reports. |
| ReportCompressor.TruncationCandidates | src/issue_from_pytest_log_action/parse_logs.py:190-198 | There is one candidate rendering per fraction 0.95, 0.75, 0.5, 0.25, 0.1 and 0.01. |
| ReportCompressor.FirstFit | src/issue_from_pytest_log_action/parse_logs.py:193-202 | A chosen candidate is within budget, and there is none iff every candidate is over budget. |
| ReportCompressor.FirstFitAt | src/issue_from_pytest_log_action/parse_logs.py:193-200 | The first candidate within budget is the one chosen. |
| ReportCompressor.Truncate | src/issue_from_pytest_log_action/parse_logs.py:189-202 | truncate returns the first candidate that fits, so its result is None or at most `max_chars` long. |
| ReportCompressor.ApplyStrategy | src/issue_from_pytest_log_action/parse_logs.py:211-225 | Each strategy yields merge_variants' or truncate's result. |
| ReportCompressor.Compressed | src/issue_from_pytest_log_action/parse_logs.py:210-227 | The compressed report is within budget, or else it is the unchecked "N failing tests" summary. |
| ReportCompressor.CompressedReport | src/issue_from_pytest_log_action/parse_logs.py:210-227 | The strategy loop returns the compressed report: within budget, or else the summary. |
| ReportCompressor.CompressedIsFirstFit | src/issue_from_pytest_log_action/parse_logs.py:210-227 | The result is the first fitting rendering among full listing, merge, and truncations 95% to 1%, or the summary when none fits. |
| ReportCompressor.CompressedWithinBudget | src/issue_from_pytest_log_action/parse_logs.py:219-227 | When the summary fits, the compressed report always fits. |
| ReportCompressor.SummarizeLayout | src/issue_from_pytest_log_action/parse_logs.py:205-207 | The summary is the report template around the single line `"{len(reports)} failing tests"`. |
| ReportCompressor.ParseRecords | src/issue_from_pytest_log_action/parse_logs.py:268-272 | Parsing fails iff some line that is not a warning fails to parse, and it never gives more records than lines. |
| ReportCompressor.ParseRecordsAppend | src/issue_from_pytest_log_action/parse_logs.py:269-272 | Parsing a concatenation gives the first error, or the two record lists joined in order. |
| ReportCompressor.ParseRecordsOne | src/issue_from_pytest_log_action/parse_logs.py:270-272 | A single warning line gives no record. Any other line gives its parsed record, or the error parse_record raises. |
| ReportCompressor.FailedRecords | src/issue_from_pytest_log_action/parse_logs.py:274 | Exactly the records with outcome "failed" are kept. |
| ReportCompressor.FailedRecordsAppend | src/issue_from_pytest_log_action/parse_logs.py:274 | Filtering a concatenation joins the filtered parts, so order and repetitions are kept. |
| ReportCompressor.FailedRecordsOne | src/issue_from_pytest_log_action/parse_logs.py:274 | A single record is kept iff its outcome is "failed". |
| ReportCompressor.PreformatAll | src/issue_from_pytest_log_action/parse_logs.py:275 | Every failed record is preformatted, in order. It fails iff some record fails to preformat. |
| ReportCompressor.ReportsOf | src/issue_from_pytest_log_action/parse_logs.py:275-279 | Report i is failure i's report. In the source `compressed_report` receives the preformatted list itself; the model's `Failed` wrapper is unwrapped here, in order. |
| ReportCompressor.ReportMessage | src/issue_from_pytest_log_action/parse_logs.py:268-279 | Reading, filtering, preformatting and rendering the log gives the message `Message` defines, or the error main stops with. |
| ReportCompressor.MessageShape | src/issue_from_pytest_log_action/parse_logs.py:268-279 | A lone collection error is printed whole under the collection session's name; otherwise the failures are compressed within 65535 characters or summarised. |
| ReportCompressor.CollectionErrorName | src/issue_from_pytest_log_action/parse_logs.py:121-125 | Every collection error is named "test collection session". |
| GitHash.MatchAt | src/issue_from_pytest_log_action/capture_versions.py:19-26 | A pattern matches at i iff its prefix (`.g`, `+g` or `g`, either case) is there and is followed by 7 or more hex digits. The group takes the greedy run, capped at 40. |
| GitHash.Leftmost | src/issue_from_pytest_log_action/capture_versions.py:26 | `re.search` finds the leftmost position where the pattern matches. |
| GitHash.ExtractGitHashShape | src/issue_from_pytest_log_action/capture_versions.py:14-28 | A hash found is 7 to 40 hex digits (either case), copied from the input right after a `g` or `G`. |
| GitHash.ExtractGitHashNone | src/issue_from_pytest_log_action/capture_versions.py:25-30 | None is returned iff no `g`/`G` in the input is followed by seven hex digits. |
| GitHash.FirstPatternFound | src/issue_from_pytest_log_action/capture_versions.py:25-30 | The result comes from the first pattern, in list order, that matches anywhere. |
| GitHash.LeftmostAt | src/issue_from_pytest_log_action/capture_versions.py:26 | The first matching position is the one `re.search` reports. |
| GitHash.LeftmostNone | src/issue_from_pytest_log_action/capture_versions.py:26 | With no matching position, `re.search` fails. |
| GitHash.DotWins | src/issue_from_pytest_log_action/capture_versions.py:19-28 | When `.g` + hex occurs, its leftmost match is returned, whatever `+g` or bare `g` would find. |
| GitHash.PlusBeforeBare | src/issue_from_pytest_log_action/capture_versions.py:21-28 | Without `.g` + hex, a `+g` + hex match wins over a bare `g`. |
| PackageDiff.ExtractVersionString | src/issue_from_pytest_log_action/track_packages.py:485-493 | A legacy string is its own version, a rich record gives its "version" (None if absent), and anything else gives None. |
| PackageDiff.ExtractGitRevision | src/issue_from_pytest_log_action/track_packages.py:496-501 | The call fails iff "git_info" is present but not a mapping (null included). A revision comes only from a "git_info" mapping. Non-rich records have none. |
| PackageDiff.FormatVersionWithGit | src/issue_from_pytest_log_action/track_packages.py:504-515 | No version gives "(missing)". A version with a non-empty revision shows as `v (rev[:8])`, and any other version shows as `v`. It fails iff the revision read fails. |
| PackageDiff.LegacyAndRichAgree | src/issue_from_pytest_log_action/track_packages.py:485-515 | A legacy string and a rich record with the same version and no revision display alike. |
| PackageDiff.ShortHash | src/issue_from_pytest_log_action/track_packages.py:511-514 | A non-empty revision is shown by its first eight characters (all of it when shorter), in parentheses after the version. |
| PackageDiff.GeneratePackageDiffLink | src/issue_from_pytest_log_action/track_packages.py:18-64 | A link exists iff the package is in the table, and it is exactly `https://github.com/{repo}/compare/v{old}...v{new}`. |
| PackageDiff.ChangeLineNone | src/issue_from_pytest_log_action/track_packages.py:527-541 | A package gets no line iff it has no version on either side, or the same version and the same revision on both. |
| PackageDiff.ChangeLineRemovedOrNew | src/issue_from_pytest_log_action/track_packages.py:532-537 | A package missing on one side gives `- p: prev → (removed)` or `- p: (new) → curr`. |
| PackageDiff.ChangeLineVersionChanged | src/issue_from_pytest_log_action/track_packages.py:538-551 | With two different versions, the line fails iff either display fails. Otherwise it is `- [p: prev → curr](link)` for a package with a compare link, and `- p: prev → curr` without one. |
| PackageDiff.ChangeLineRevisionChanged | src/issue_from_pytest_log_action/track_packages.py:538-556 | With equal versions and two different revisions, the line is `- p: prev → curr (git revision changed)`, with both displays. |
| PackageDiff.PackageChanges | src/issue_from_pytest_log_action/track_packages.py:523-558 | There is at most one line per key. The diff fails iff some key's change line fails. |
| PackageDiff.PackageChangesAppend | src/issue_from_pytest_log_action/track_packages.py:523-558 | The diff of a concatenated key list is the first part's error, or the first part's lines followed by the second part's lines or error. Lines therefore follow key order, which is ascending for the sorted key union. |
| PackageDiff.PackageChangesOne | src/issue_from_pytest_log_action/track_packages.py:523-558 | A single key gives its change line, no line, or its error. |
| PackageDiff.AllPackages | src/issue_from_pytest_log_action/track_packages.py:521-523 | The keys visited are exactly the union of both snapshots' keys, in strictly ascending order. |
| PackageDiff.ChangesFor | src/issue_from_pytest_log_action/track_packages.py:520-558 | The append loop produces exactly the specified diff over the given keys. |
| PackageDiff.GetPackageChanges | src/issue_from_pytest_log_action/track_packages.py:518-558 | get_package_changes is the diff over the sorted union of keys, with at most one line per package. |
| PackageDiff.IdenticalSnapshots | src/issue_from_pytest_log_action/track_packages.py:518-558 | A snapshot compared with itself gives no lines. |
| PackageDiff.NullIsAbsent | src/issue_from_pytest_log_action/track_packages.py:518-531 | A package mapped to null in the current snapshot joins the sorted key union but gives the same get_package_changes result as a missing package. |
| PackageDiff.NullIsAbsentPrevious | src/issue_from_pytest_log_action/track_packages.py:518-531 | The same holds for a package mapped to null in the previous snapshot. |
| Bisect.BeforeIrreflexive | src/issue_from_pytest_log_action/track_packages.py:466 | No run sorts before itself. |
| Bisect.BeforeTotal | src/issue_from_pytest_log_action/track_packages.py:466 | Of two runs, one always sorts first. Under reverse=True the stable sort is timestamp descending, ties in stored order, with a missing timestamp as "". |
| Bisect.BeforeTransitive | src/issue_from_pytest_log_action/track_packages.py:466 | The newest-first order is transitive. |
| Bisect.Insert | src/issue_from_pytest_log_action/track_packages.py:466 | Inserting an index adds exactly that index. |
| Bisect.InsertSorted | src/issue_from_pytest_log_action/track_packages.py:466 | Inserting a later index keeps the order sorted. |
| Bisect.NewestFirst | src/issue_from_pytest_log_action/track_packages.py:466 | The sorted order is a permutation of the run indices. |
| Bisect.NewestFirstSorted | src/issue_from_pytest_log_action/track_packages.py:466 | The sorted order is newest first. |
| Bisect.Arrange | src/issue_from_pytest_log_action/track_packages.py:466 | The sorted list holds the runs in the given order. |
| Bisect.FirstLacking | src/issue_from_pytest_log_action/track_packages.py:471-475 | The scan stops at the first run whose `failed_tests` (default `[]`) lacks the test; every run it skips lists the test. |
| Bisect.LastGoodIsNewest | src/issue_from_pytest_log_action/track_packages.py:466-475 | A test has no last-good run iff every run lists it as failed. Otherwise the run found lacks it and sorts before every other run that lacks it. |
| Bisect.FindLastSuccessfulRunForTests | src/issue_from_pytest_log_action/track_packages.py:466-482 | Every failing test, and only those, maps to its last-good run. When the history could not be read, every test maps to None. |
| Bisect.RetrieveLastSuccessfulRun | src/issue_from_pytest_log_action/track_packages.py:400-427 | None iff no run passed with a timestamp. Otherwise the result is a passed run with the largest timestamp, the first such in stored order. |
| Bisect.FailedNodeIds | src/issue_from_pytest_log_action/track_packages.py:137-145 | There are no more ids than log lines. |
| Bisect.FailedNodeIdsExact | src/issue_from_pytest_log_action/track_packages.py:139-145 | An id is extracted iff some TestReport or CollectReport line with outcome "failed" carries it as a non-empty nodeid. |
| Bisect.FailedNodeIdsAppend | src/issue_from_pytest_log_action/track_packages.py:137-145 | The ids of a concatenation of lines are the two id lists joined, in log order. |
| Bisect.FailedNodeIdsOne | src/issue_from_pytest_log_action/track_packages.py:139-145 | A single line gives its nodeid iff it is a failed TestReport or CollectReport with a non-empty nodeid, and nothing otherwise. |
| Bisect.CollectionFailureNotCounted | src/issue_from_pytest_log_action/track_packages.py:143 | A failed collect record with an empty nodeid adds nothing. |
| Bisect.ExtractFailedTestsFromLog | src/issue_from_pytest_log_action/track_packages.py:132-150 | The loop keeps the failed nodeids in log order and skips malformed lines. A missing file gives []. |
| Bisect.TestStatus | src/issue_from_pytest_log_action/track_packages.py:242 | The status is "failed" iff the failed list is non-empty, and "passed" iff it is empty. |
| Bisect.CreateBisectData | src/issue_from_pytest_log_action/track_packages.py:208-244 | A new run stores the failed list and the matching status. It counts as passed iff nothing failed and it has a timestamp. |
| Bisect.RunFileNameShape | src/issue_from_pytest_log_action/track_packages.py:251 | The name is `run_{id}_{stamp}.json`, where the stamp is the timestamp with every `:` replaced by `-` and then every `Z` deleted. A missing key raises KeyError. |
| Text.DeleteCharAppend | src/issue_from_pytest_log_action/track_packages.py:251 | Deleting a character from a concatenation deletes it from each part, so the characters kept stay in order. |
| Text.DeleteCharOne | src/issue_from_pytest_log_action/track_packages.py:251 | A single character is deleted iff it is the one named. |
| Bisect.ShortMessage | src/issue_from_pytest_log_action/track_packages.py:599-604 | A commit message is cut to 60 characters, and "..." is added only when it was longer. |
| Bisect.LastPassedLine | src/issue_from_pytest_log_action/track_packages.py:609-617 | Reading the last run's id and timestamp raises iff either is missing. |
| Bisect.CodeChangeLines | src/issue_from_pytest_log_action/track_packages.py:595-617 | There are four lines when the commit hashes differ and three otherwise. The heading comes first and the "last passed" line last. |
| Bisect.CommitChanged | src/issue_from_pytest_log_action/track_packages.py:597-610 | Different commit hashes give both commit lines, the last-good one first. Each line holds the short hash, or "unknown" when it is absent, and the message cut to 60 characters with "..." when longer; an absent message reads as "". |
| Bisect.SameCommit | src/issue_from_pytest_log_action/track_packages.py:612-617 | Equal commit hashes give the heading, "- No code changes detected" and the last-passed line. |
| Bisect.Sections | src/issue_from_pytest_log_action/track_packages.py:575-622 | There is one section per failing test, in order, and section i is the TestSection of test i and its last-good run. Building the sections fails iff some test's section fails. |
| Bisect.SectionWithoutRun | src/issue_from_pytest_log_action/track_packages.py:618-622 | A test without a last-good run gets "### Analysis" and "- No recent successful run found for this test". |
| Bisect.SectionWithoutChanges | src/issue_from_pytest_log_action/track_packages.py:581-617 | When the packages and commit are unchanged since the last pass, the section says "- No package changes detected" and "- No code changes detected". |
| Bisect.ComparisonShape | src/issue_from_pytest_log_action/track_packages.py:565-627 | The result is None iff no test failed. Otherwise it starts with the first test's `## test` heading and ends in `\n\n`. |
| Bisect.BuildTestSection | src/issue_from_pytest_log_action/track_packages.py:576-622 | The append and extend steps build exactly the specified section. |
| Bisect.FormatBisectComparison | src/issue_from_pytest_log_action/track_packages.py:561-627 | The method builds exactly the specified comparison. Its result does not depend on `previous_data`. |
| RunMetadata.ExtractTestStatus | src/issue_from_pytest_log_action/extract_run_metadata.py:32-34 | Returns the stored "test_status", or "unknown" without one. |
| RunMetadata.ExtractFailedTestCount | src/issue_from_pytest_log_action/extract_run_metadata.py:37-40 | Returns the length of "failed_tests"; it is 0 iff the list is absent or empty. |
| RunMetadata.StatusMatchesCount | src/issue_from_pytest_log_action/extract_run_metadata.py:32-40 | For a stored run, the status is "failed" iff the count is positive. |
| RunMetadata.LatestIndex | src/issue_from_pytest_log_action/extract_run_metadata.py:20 | `max` picks an mtime no smaller than any other, and the first such file. |
| RunMetadata.FindLatestRunFile | src/issue_from_pytest_log_action/extract_run_metadata.py:11-20 | Fails with "No run_*.json files found in current directory" iff there are no files. Otherwise it returns a file with the largest mtime, and no file listed before it has that mtime. |
| RunMetadata.TieGoesToFirst | src/issue_from_pytest_log_action/extract_run_metadata.py:20 | Of two files with the same largest mtime, the first listed is chosen. |
| RunMetadata.StoredRunIsFound | src/issue_from_pytest_log_action/extract_run_metadata.py:14 | The file a new run is stored under matches the `run_*.json` glob. |

## Left out

- I/O is outside the model, and its results are inputs:
  - git and subprocess plumbing: `get_all_installed_packages`, `get_package_version`, `get_git_info`, `store_bisect_data_to_branch`, and the `ls-remote`/`fetch`/`ls-tree`/`show` calls;
  - reading the log, the captured-versions file and `bisect-comparison.txt`;
  - the environment variables and clock in `create_bisect_data`;
  - the glob and `stat` calls in `find_latest_run_file`;
  - argparse and every `main`, except the message choice of `parse_logs.main`.
- Run history: given as `Option<seq<Run>>`, where None means git failed.
  - For find_last_successful_run_for_tests, a failure of any git call maps every test to None.
  - Files that fail to load are simply absent from the sequence.
  - retrieve_last_successful_run's checks that the branch exists and has `.json` files are covered by None and by an empty sequence.
- include_bisection_info: it prepends a file's text to the message, and that file read is outside the model.
- extract_git_info (capture_versions.py) calls importlib and is not part of this model.
- pytest's report classes: a record is a datatype carrying the nodeid, the outcome and the long representation. The long representation is plain text, or a crash report with its message and its rendered text. Session records keep one field each.
- JSON values: a key mapped to null is modelled as an absent key, except "git_info", whose null value is a non-mapping (NotAMapping) and raises as in the source.
  - A run whose "packages" is null therefore counts as missing.
  - Where the source reads a null value, its behaviour differs from the absent key's, and those differences are not modelled:
    - a null "git", or a null "packages" on the last-good run, raises AttributeError;
    - a null "timestamp" makes the newest-first sort raise TypeError;
    - a null "failed_tests" raises TypeError;
    - a null "workflow_run_id" or "test_status" is printed as "None";
    - a null current "packages" fails only when some test has a last-good run.
  - A log line that is JSON but not an object is not modelled.
  - Extra keys of a run are summarised as one flag, which matters only for the truthiness of an empty record.
- Run.git: only "commit_hash", "commit_hash_short" and "commit_message" are kept; author and date are never read by the core.
- ReportCompressor.KeptCount: `int(n * f)` for the float fractions is modelled as the integer n·k/100 for k in 95, 75, 50, 25, 10, 1. Floating-point rounding is not modelled.
- Python's integer and string sizes are unbounded, as in Dafny, so no width is modelled.
- format_bisect_comparison's final `return None` cannot be reached, because a non-empty test list always yields sections; the model has no branch for it.
- Concrete examples from the repository's tests are not restated one by one. The general lemmas cover them, for example DotWins for `1.0.0.dev0+123.gabc123d.more.gdef456`, MatchAt for the 7-digit minimum, and ExtractGitHashNone for the inputs that give None.
- ReportCompressor.FirstSeenKeys: its own contract gives only distinctness and the bound; the first-seen order is FirstSeenOrder and the membership is FirstSeenKeysExact.
- ReportCompressor.Bucket: its own contract gives only the bound; order is BucketAppend and BucketOne, multiplicity BucketCount, membership BucketExact.
- Bisect.FailedNodeIds: its own contract gives only the bound; FailedNodeIdsAppend and FailedNodeIdsOne fix the list exactly.
- A log line without a `$report_type` key raises `KeyError` in the warning filter, and a line that is not JSON raises `JSONDecodeError`; both come before the records the model takes as input and are not modelled.
- ParseLogs.StripAnsi: its own contract gives only the length bound; what it removes and keeps is stated by the StripAnsi lemmas listed above.
- The root-level copies of parse_logs.py, track_packages.py and capture_versions.py, and the glue scripts, are not part of this model.
