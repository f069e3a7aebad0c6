/** Fitting the failure reports into a character budget (parse_logs.py, from merge_variants
    to the end of main). */
module ReportCompressor {
  import opened Wrappers
  import opened Text
  import opened ParseLogs

  /** The budget main passes to compressed_report. */
  const MaxChars: int := 65535

  /** One full summary line per report, in order. */
  function SummaryLines(reports: seq<Report>): (lines: seq<string>)
    ensures |lines| == |reports|
    ensures forall i :: 0 <= i < |reports| ==> lines[i] == FormatSummary(reports[i])
  {
    seq(|reports|, i requires 0 <= i < |reports| => FormatSummary(reports[i]))
  }

  /** The uncompressed rendering: every report on its own line. */
  function FullListing(reports: seq<Report>, pyVersion: string): string {
    FormatReport(SummaryLines(reports), pyVersion)
  }

  /** `"{n} failing tests"`. */
  function CountLine(n: nat): string {
    NatToString(n) + " failing tests"
  }

  /** summarize: only the number of failing tests. */
  function Summarize(reports: seq<Report>, pyVersion: string): string {
    FormatReport([CountLine(|reports|)], pyVersion)
  }

  /** The summary is the report template around the single line "N failing tests". */
  lemma SummarizeLayout(reports: seq<Report>, pyVersion: string)
    ensures var r := Summarize(reports, pyVersion);
      && r[..|Header(pyVersion)| + 4] == Header(pyVersion) + "```\n"
      && r[|Header(pyVersion)| + 4..|r| - |Footer|] == NatToString(|reports|) + " failing tests"
      && r[|r| - |Footer|..] == Footer
  {
    FormatReportLayout([CountLine(|reports|)], pyVersion);
    assert Join([CountLine(|reports|)], "\n") == CountLine(|reports|);
  }

  // ---------------------------------------------------------------------------
  // merge_variants
  // ---------------------------------------------------------------------------

  /** Reports with equal keys differ at most in their variant. */
  datatype GroupKey = GroupKey(filepath: string, name: Option<string>, message: string)

  function KeyOf(r: Report): GroupKey {
    GroupKey(r.filepath, r.name, r.message)
  }

  /** The distinct keys of the reports, in the order they are first seen. */
  function FirstSeenKeys(reports: seq<Report>): (keys: seq<GroupKey>)
    ensures forall i, j :: 0 <= i < j < |keys| ==> keys[i] != keys[j]
    ensures |keys| <= |reports|
    decreases |reports|
  {
    if reports == [] then []
    else
      var keys := FirstSeenKeys(reports[..|reports| - 1]);
      var k := KeyOf(reports[|reports| - 1]);
      if k in keys then keys else keys + [k]
  }

  /** Every report's key is listed, and every listed key is some report's. */
  lemma {:induction false} FirstSeenKeysExact(reports: seq<Report>)
    ensures forall i :: 0 <= i < |reports| ==> KeyOf(reports[i]) in FirstSeenKeys(reports)
    ensures forall k :: k in FirstSeenKeys(reports) ==>
      (exists i :: 0 <= i < |reports| && KeyOf(reports[i]) == k)
    decreases |reports|
  {
    if reports != [] {
      var init := reports[..|reports| - 1];
      FirstSeenKeysExact(init);
      assert forall i :: 0 <= i < |init| ==> init[i] == reports[i];
    }
  }

  /** The reports with key k, in their original order. */
  function Bucket(reports: seq<Report>, k: GroupKey): (group: seq<Report>)
    ensures |group| <= |reports|
    decreases |reports|
  {
    if reports == [] then []
    else
      var last := reports[|reports| - 1];
      Bucket(reports[..|reports| - 1], k) + (if KeyOf(last) == k then [last] else [])
  }

  /** Appending one report extends its key's bucket and leaves the others alone. */
  lemma BucketSnoc(reports: seq<Report>, r: Report, k: GroupKey)
    ensures Bucket(reports + [r], k) == Bucket(reports, k) + (if KeyOf(r) == k then [r] else [])
  {
    assert (reports + [r])[..|reports|] == reports;
  }

  /** Appending one report lists its key at the end unless it was already listed. */
  lemma FirstSeenKeysSnoc(reports: seq<Report>, r: Report)
    ensures FirstSeenKeys(reports + [r])
      == if KeyOf(r) in FirstSeenKeys(reports) then FirstSeenKeys(reports) else FirstSeenKeys(reports) + [KeyOf(r)]
  {
    assert (reports + [r])[..|reports|] == reports;
  }

  /** A bucket holds exactly the reports with its key, and it is non-empty exactly for the
      keys merge_variants lists. */
  lemma {:induction false} BucketExact(reports: seq<Report>, k: GroupKey)
    ensures forall r :: r in Bucket(reports, k) <==> r in reports && KeyOf(r) == k
    ensures k in FirstSeenKeys(reports) <==> Bucket(reports, k) != []
    decreases |reports|
  {
    if reports != [] {
      var init := reports[..|reports| - 1];
      BucketExact(init, k);
      assert reports == init + [reports[|reports| - 1]];
    }
  }

  /** Key a is seen in the reports before key b is first seen. */
  ghost predicate SeenBefore(reports: seq<Report>, a: GroupKey, b: GroupKey) {
    exists p :: 0 <= p < |reports| && KeyOf(reports[p]) == a
      && forall q :: 0 <= q <= p ==> KeyOf(reports[q]) != b
  }

  /** The keys are listed in the order of their first occurrence: an earlier key occurs
      before the first occurrence of any later one. */
  lemma {:induction false} FirstSeenOrder(reports: seq<Report>, i: nat, j: nat)
    requires i < j < |FirstSeenKeys(reports)|
    ensures SeenBefore(reports, FirstSeenKeys(reports)[i], FirstSeenKeys(reports)[j])
    decreases |reports|
  {
    var n := |reports|;
    var init, last := reports[..n - 1], reports[n - 1];
    var keys := FirstSeenKeys(init);
    assert reports == init + [last];
    FirstSeenKeysSnoc(init, last);
    if j < |keys| {
      FirstSeenOrder(init, i, j);
      SeenBeforeSnoc(init, last, keys[i], keys[j]);
    } else {
      SeenBeforeNewKey(init, last, keys[i]);
    }
  }

  /** Appending a report keeps what was seen before what. */
  lemma SeenBeforeSnoc(reports: seq<Report>, r: Report, a: GroupKey, b: GroupKey)
    requires SeenBefore(reports, a, b)
    ensures SeenBefore(reports + [r], a, b)
  {
    var p :| 0 <= p < |reports| && KeyOf(reports[p]) == a
      && forall q :: 0 <= q <= p ==> KeyOf(reports[q]) != b;
    var s := reports + [r];
    assert forall q :: 0 <= q <= p ==> s[q] == reports[q];
    assert KeyOf(s[p]) == a;
  }

  /** Every key already listed is seen before the key of a report that brings a new one. */
  lemma SeenBeforeNewKey(reports: seq<Report>, r: Report, a: GroupKey)
    requires a in FirstSeenKeys(reports) && KeyOf(r) !in FirstSeenKeys(reports)
    ensures SeenBefore(reports + [r], a, KeyOf(r))
  {
    FirstSeenKeysExact(reports);
    var p :| 0 <= p < |reports| && KeyOf(reports[p]) == a;
    var s := reports + [r];
    forall q | 0 <= q <= p ensures KeyOf(s[q]) != KeyOf(r) {
      assert s[q] == reports[q];
    }
    assert KeyOf(s[p]) == a;
  }

  /** Bucketing a concatenation concatenates the buckets. */
  lemma {:induction false} BucketAppend(a: seq<Report>, b: seq<Report>, k: GroupKey)
    ensures Bucket(a + b, k) == Bucket(a, k) + Bucket(b, k)
    decreases |b|
  {
    if b == [] {
      assert a + b == a;
    } else {
      var b' := b[..|b| - 1];
      assert (a + b)[..|a + b| - 1] == a + b';
      BucketAppend(a, b', k);
    }
  }

  /** A single report is its key's whole bucket, and no other key's. */
  lemma BucketOne(r: Report, k: GroupKey)
    ensures Bucket([r], k) == if KeyOf(r) == k then [r] else []
  {
    assert [r][..0] == [];
  }

  /** A bucket holds each report with its key exactly as often as the list does, and nothing
      else: the count format_variant_group prints is the number of such reports. */
  lemma {:induction false} BucketCount(reports: seq<Report>, k: GroupKey)
    ensures forall r :: multiset(Bucket(reports, k))[r] == if KeyOf(r) == k then multiset(reports)[r] else 0
    decreases |reports|
  {
    if reports != [] {
      var init, last := reports[..|reports| - 1], reports[|reports| - 1];
      BucketCount(init, k);
      assert reports == init + [last];
      assert multiset(reports) == multiset(init) + multiset{last};
    }
  }

  /** format_variant_group: one line for a whole group. */
  function GroupLine(k: GroupKey, group: seq<Report>): string {
    if |group| != 1 then
      k.filepath + "::" + OptText(k.name) + "[" + NatToString(|group|) + " failing variants]: " + k.message
    else if group[0].variant.Some? then
      k.filepath + "::" + OptText(k.name) + "[" + group[0].variant.value + "]: " + k.message
    else
      k.filepath + "::" + OptText(k.name) + ": " + k.message
  }

  /** The lines merge_variants renders: one per group, groups in first-seen order. */
  function MergedLines(reports: seq<Report>): (lines: seq<string>)
    ensures |lines| == |FirstSeenKeys(reports)| <= |reports|
  {
    var keys := FirstSeenKeys(reports);
    seq(|keys|, i requires 0 <= i < |keys| => GroupLine(keys[i], Bucket(reports, keys[i])))
  }

  /** keys and buckets are what bucketing the reports in prefix gives. */
  ghost predicate Filled(prefix: seq<Report>, keys: seq<GroupKey>, buckets: map<GroupKey, seq<Report>>) {
    && keys == FirstSeenKeys(prefix)
    && (forall k :: k in buckets <==> k in keys)
    && (forall k :: k in buckets ==> buckets[k] == Bucket(prefix, k))
  }

  /** Filing report i: its key's bucket grows, or a new key and bucket are added. */
  lemma FilledStep(reports: seq<Report>, i: nat, keys: seq<GroupKey>, buckets: map<GroupKey, seq<Report>>)
    requires i < |reports| && Filled(reports[..i], keys, buckets)
    ensures var k := KeyOf(reports[i]);
      Filled(reports[..i + 1],
             if k in buckets then keys else keys + [k],
             if k in buckets then buckets[k := buckets[k] + [reports[i]]] else buckets[k := [reports[i]]])
  {
    var prefix, r := reports[..i], reports[i];
    var k := KeyOf(r);
    var keys' := if k in buckets then keys else keys + [k];
    var buckets' := if k in buckets then buckets[k := buckets[k] + [r]] else buckets[k := [r]];
    assert reports[..i + 1] == prefix + [r];
    assert keys' == FirstSeenKeys(prefix + [r]) by {
      FirstSeenKeysSnoc(prefix, r);
    }
    forall k' | k' in buckets' ensures buckets'[k'] == Bucket(prefix + [r], k') {
      FiledBucket(prefix, r, keys, buckets, k');
    }
  }

  /** After filing r, each bucket is the bucket of the longer prefix. */
  lemma FiledBucket(prefix: seq<Report>, r: Report, keys: seq<GroupKey>, buckets: map<GroupKey, seq<Report>>, k': GroupKey)
    requires Filled(prefix, keys, buckets)
    requires k' in buckets || k' == KeyOf(r)
    ensures var k := KeyOf(r);
      var buckets' := if k in buckets then buckets[k := buckets[k] + [r]] else buckets[k := [r]];
      buckets'[k'] == Bucket(prefix + [r], k')
  {
    BucketSnoc(prefix, r, k');
    if k' == KeyOf(r) && k' !in buckets {
      BucketExact(prefix, k');
    }
  }

  /** more_itertools.bucket: one bucket per key, filled in a single scan of the reports, and
      the keys in the order they are first seen. */
  method BucketReports(reports: seq<Report>) returns (keys: seq<GroupKey>, buckets: map<GroupKey, seq<Report>>)
    ensures keys == FirstSeenKeys(reports)
    ensures forall k :: k in buckets <==> k in keys
    ensures forall k :: k in buckets ==> buckets[k] == Bucket(reports, k)
  {
    keys := [];
    buckets := map[];
    for i := 0 to |reports|
      invariant Filled(reports[..i], keys, buckets)
    {
      var r := reports[i];
      var k := KeyOf(r);
      FilledStep(reports, i, keys, buckets);
      if k in buckets {
        buckets := buckets[k := buckets[k] + [r]];
      } else {
        keys := keys + [k];
        buckets := buckets[k := [r]];
      }
    }
    assert reports[..|reports|] == reports;
  }

  /** merge_variants: one line per bucket, buckets in first-seen order. It ignores the budget. */
  method MergeVariants(reports: seq<Report>, maxChars: int, pyVersion: string) returns (formatted: string)
    ensures formatted == FormatReport(MergedLines(reports), pyVersion)
  {
    var keys, buckets := BucketReports(reports);
    var summaries := seq(|keys|, i requires 0 <= i < |keys| && keys[i] in buckets =>
      GroupLine(keys[i], buckets[keys[i]]));
    assert summaries == MergedLines(reports);
    formatted := FormatReport(summaries, pyVersion);
  }

  /** Two reports of one test with one message merge into a single "[2 failing variants]" line. */
  lemma MergeTwoVariants(a: Report, b: Report)
    requires KeyOf(a) == KeyOf(b)
    ensures MergedLines([a, b]) == [a.filepath + "::" + OptText(a.name) + "[2 failing variants]: " + a.message]
  {
    var k := KeyOf(a);
    TwoSameKeys(a, b);
    assert MergedLines([a, b]) == [GroupLine(k, [a, b])];
    PairLine(k, [a, b]);
  }

  /** Two reports with one key form one group holding both. */
  lemma TwoSameKeys(a: Report, b: Report)
    requires KeyOf(a) == KeyOf(b)
    ensures FirstSeenKeys([a, b]) == [KeyOf(a)] && Bucket([a, b], KeyOf(a)) == [a, b]
  {
    assert [a, b][..1] == [a];
    assert [a][..0] == [];
  }

  /** A group of two is counted in its line. */
  lemma PairLine(k: GroupKey, group: seq<Report>)
    requires |group| == 2
    ensures GroupLine(k, group) == k.filepath + "::" + OptText(k.name) + "[2 failing variants]: " + k.message
  {
    var head := k.filepath + "::" + OptText(k.name);
    assert NatToString(2) == "2";
    assert GroupLine(k, group) == head + "[" + "2" + " failing variants]: " + k.message;
    Regroup(head, "[", "2", " failing variants]: ", k.message);
    PairLiteral();
  }

  lemma Regroup(h: string, a: string, b: string, c: string, m: string)
    ensures h + a + b + c + m == h + (a + b + c) + m
  {
  }

  lemma PairLiteral()
    ensures "[" + "2" + " failing variants]: " == "[2 failing variants]: "
  {
  }

  /** When no two reports share a key and every report has a name, merging changes nothing:
      each group is a single report rendered exactly as in the full listing. */
  lemma MergeDistinctIsListing(reports: seq<Report>)
    requires forall i, j :: 0 <= i < j < |reports| ==> KeyOf(reports[i]) != KeyOf(reports[j])
    requires forall i :: 0 <= i < |reports| ==> reports[i].name.Some?
    ensures MergedLines(reports) == SummaryLines(reports)
  {
    DistinctKeys(reports);
    forall i | 0 <= i < |reports| ensures MergedLines(reports)[i] == SummaryLines(reports)[i] {
      var r := reports[i];
      assert GroupLine(KeyOf(r), [r]) == FormatSummary(r);
    }
  }

  /** With pairwise distinct keys, each report is its own group, in order. */
  lemma {:induction false} DistinctKeys(reports: seq<Report>)
    requires forall i, j :: 0 <= i < j < |reports| ==> KeyOf(reports[i]) != KeyOf(reports[j])
    ensures OwnGroups(reports)
    decreases |reports|
  {
    if reports != [] {
      var init := reports[..|reports| - 1];
      assert forall i, j :: 0 <= i < j < |init| ==> KeyOf(init[i]) != KeyOf(init[j]) by {
        assert forall i :: 0 <= i < |init| ==> init[i] == reports[i];
      }
      DistinctKeys(init);
      OwnGroupsSnoc(reports);
    }
  }

  /** Each report's key is listed at its own position and its bucket is just that report. */
  predicate OwnGroups(reports: seq<Report>) {
    && |FirstSeenKeys(reports)| == |reports|
    && (forall i :: 0 <= i < |reports| ==> FirstSeenKeys(reports)[i] == KeyOf(reports[i]))
    && (forall i :: 0 <= i < |reports| ==> Bucket(reports, KeyOf(reports[i])) == [reports[i]])
  }

  /** A last report whose key is new forms a group of its own. */
  lemma OwnGroupsSnoc(reports: seq<Report>)
    requires reports != [] && OwnGroups(reports[..|reports| - 1])
    requires forall i :: 0 <= i < |reports| - 1 ==> KeyOf(reports[i]) != KeyOf(reports[|reports| - 1])
    ensures OwnGroups(reports)
  {
    var n := |reports|;
    var init := reports[..n - 1];
    var last := reports[n - 1];
    assert KeyOf(last) !in FirstSeenKeys(init) by {
      forall i | 0 <= i < n - 1 ensures FirstSeenKeys(init)[i] != KeyOf(last) {
        assert FirstSeenKeys(init)[i] == KeyOf(init[i]);
      }
    }
    OwnBucketsSnoc(reports);
  }

  /** Appending a report with a new key leaves every earlier singleton bucket as it was and
      gives the new key a singleton bucket. */
  lemma OwnBucketsSnoc(reports: seq<Report>)
    requires reports != [] && OwnGroups(reports[..|reports| - 1])
    requires KeyOf(reports[|reports| - 1]) !in FirstSeenKeys(reports[..|reports| - 1])
    ensures forall i :: 0 <= i < |reports| ==> Bucket(reports, KeyOf(reports[i])) == [reports[i]]
  {
    var n := |reports|;
    var init := reports[..n - 1];
    forall i | 0 <= i < n ensures Bucket(reports, KeyOf(reports[i])) == [reports[i]] {
      OwnBucketAt(reports, i);
    }
  }

  lemma OwnBucketAt(reports: seq<Report>, i: nat)
    requires i < |reports| && OwnGroups(reports[..|reports| - 1])
    requires KeyOf(reports[|reports| - 1]) !in FirstSeenKeys(reports[..|reports| - 1])
    ensures Bucket(reports, KeyOf(reports[i])) == [reports[i]]
  {
    var init := reports[..|reports| - 1];
    var last := reports[|reports| - 1];
    var k := KeyOf(reports[i]);
    assert Bucket(reports, k) == Bucket(init, k) + (if KeyOf(last) == k then [last] else []);
    if i == |reports| - 1 {
      BucketExact(init, k);
    } else {
      assert reports[i] == init[i];
      assert FirstSeenKeys(init)[i] == k;
    }
  }

  /** A report without a name (a collection failure outside any test) is rendered by
      merge_variants with the literal name "None". */
  lemma MergeNamelessReport(r: Report)
    requires r.name.None? && r.variant.None?
    ensures MergedLines([r]) == [r.filepath + "::None: " + r.message]
  {
    assert [r][..0] == [];
    assert FirstSeenKeys([r]) == [KeyOf(r)];
    assert Bucket([r], KeyOf(r)) == [r];
    assert MergedLines([r])[0] == GroupLine(KeyOf(r), [r]);
    assert GroupLine(KeyOf(r), [r]) == r.filepath + "::" + "None" + ": " + r.message;
    assert r.filepath + "::" + "None" + ": " + r.message == r.filepath + "::None: " + r.message;
  }

  // ---------------------------------------------------------------------------
  // truncate
  // ---------------------------------------------------------------------------

  /** A fraction of the reports, as a whole percentage. */
  type Percent = p: nat | p <= 100

  /** The fractions 0.95, 0.75, 0.5, 0.25, 0.1 and 0.01, as percentages. */
  const TruncationPercents: seq<Percent> := [95, 75, 50, 25, 10, 1]

  /** `int(n * fraction)`. */
  function KeptCount(n: nat, pct: Percent): (k: nat)
    ensures k <= n
  {
    n * pct / 100
  }

  /** The first reports in full and a line counting the ones left out. */
  function TruncatedListing(reports: seq<Report>, pct: Percent, pyVersion: string): string
  {
    var k := KeptCount(|reports|, pct);
    FormatReport(SummaryLines(reports[..k]) + ["+ " + NatToString(|reports| - k) + " failing tests"], pyVersion)
  }

  function TruncationCandidates(reports: seq<Report>, pyVersion: string): (cs: seq<string>)
    ensures |cs| == |TruncationPercents|
  {
    seq(|TruncationPercents|, i requires 0 <= i < |TruncationPercents| =>
      TruncatedListing(reports, TruncationPercents[i], pyVersion))
  }

  /** The first candidate whose length is within the budget. */
  function FirstFit(candidates: seq<string>, maxChars: int): (r: Option<string>)
    ensures r.Some? ==> |r.value| <= maxChars
    ensures r.None? <==> forall i :: 0 <= i < |candidates| ==> |candidates[i]| > maxChars
    decreases |candidates|
  {
    if candidates == [] then None
    else if |candidates[0]| <= maxChars then Some(candidates[0])
    else
      assert forall i :: 1 <= i < |candidates| ==> candidates[i] == candidates[1..][i - 1];
      FirstFit(candidates[1..], maxChars)
  }

  /** The first candidate within the budget is the one chosen. */
  lemma {:induction false} FirstFitAt(candidates: seq<string>, maxChars: int, i: nat)
    requires i < |candidates| && |candidates[i]| <= maxChars
    requires forall j :: 0 <= j < i ==> |candidates[j]| > maxChars
    ensures FirstFit(candidates, maxChars) == Some(candidates[i])
    decreases i
  {
    if i > 0 {
      FirstFitAt(candidates[1..], maxChars, i - 1);
    }
  }

  /** truncate: tries the fractions in order and returns the first rendering within the
      budget, or nothing. */
  method Truncate(reports: seq<Report>, maxChars: int, pyVersion: string) returns (r: Option<string>)
    ensures r == FirstFit(TruncationCandidates(reports, pyVersion), maxChars)
    ensures r.None? || |r.value| <= maxChars
  {
    ghost var cs := TruncationCandidates(reports, pyVersion);
    for i := 0 to |TruncationPercents|
      invariant FirstFit(cs, maxChars) == FirstFit(cs[i..], maxChars)
    {
      var formatted := TruncatedListing(reports, TruncationPercents[i], pyVersion);
      assert cs[i..][1..] == cs[i + 1..];
      if |formatted| <= maxChars {
        return Some(formatted);
      }
    }
    return None;
  }

  // ---------------------------------------------------------------------------
  // compressed_report
  // ---------------------------------------------------------------------------

  datatype Strategy = MergeVariantsStrategy | TruncateStrategy

  /** The strategies compressed_report tries after the full listing, in order. */
  const Strategies: seq<Strategy> := [MergeVariantsStrategy, TruncateStrategy]

  function StrategyResult(s: Strategy, reports: seq<Report>, maxChars: int, pyVersion: string): Option<string> {
    match s
    case MergeVariantsStrategy => Some(FormatReport(MergedLines(reports), pyVersion))
    case TruncateStrategy => FirstFit(TruncationCandidates(reports, pyVersion), maxChars)
  }

  method ApplyStrategy(s: Strategy, reports: seq<Report>, maxChars: int, pyVersion: string) returns (r: Option<string>)
    ensures r == StrategyResult(s, reports, maxChars, pyVersion)
  {
    match s
    case MergeVariantsStrategy =>
      var merged := MergeVariants(reports, maxChars, pyVersion);
      r := Some(merged);
    case TruncateStrategy =>
      r := Truncate(reports, maxChars, pyVersion);
  }

  /** The strategies from index i on: the first result within the budget, else the summary. */
  function FromStrategy(reports: seq<Report>, maxChars: int, pyVersion: string, i: nat): string
    decreases |Strategies| - i
  {
    if i >= |Strategies| then Summarize(reports, pyVersion)
    else
      var c := StrategyResult(Strategies[i], reports, maxChars, pyVersion);
      if c.Some? && |c.value| <= maxChars then c.value else FromStrategy(reports, maxChars, pyVersion, i + 1)
  }

  /** What compressed_report returns. */
  function Compressed(reports: seq<Report>, maxChars: int, pyVersion: string): (r: string)
    ensures |r| <= maxChars || r == Summarize(reports, pyVersion)
  {
    var full := FullListing(reports, pyVersion);
    if |full| <= maxChars then full else FromStrategy(reports, maxChars, pyVersion, 0)
  }

  /** compressed_report: the full listing if it fits, else the first strategy whose result
      fits, else the summary line, whatever its length. */
  method CompressedReport(reports: seq<Report>, maxChars: int, pyVersion: string) returns (formatted: string)
    ensures formatted == Compressed(reports, maxChars, pyVersion)
    ensures |formatted| <= maxChars || formatted == Summarize(reports, pyVersion)
  {
    var summaries := SummaryLines(reports);
    formatted := FormatReport(summaries, pyVersion);
    if |formatted| <= maxChars {
      return;
    }
    for i := 0 to |Strategies|
      invariant FromStrategy(reports, maxChars, pyVersion, 0) == FromStrategy(reports, maxChars, pyVersion, i)
    {
      var candidate := ApplyStrategy(Strategies[i], reports, maxChars, pyVersion);
      if candidate.Some? && |candidate.value| <= maxChars {
        return candidate.value;
      }
    }
    formatted := Summarize(reports, pyVersion);
  }

  /** Choosing among two leading candidates and the rest. */
  lemma FirstFitTwoThen(a: string, b: string, rest: seq<string>, maxChars: int)
    ensures FirstFit([a, b] + rest, maxChars)
      == if |a| <= maxChars then Some(a) else if |b| <= maxChars then Some(b) else FirstFit(rest, maxChars)
  {
    var all := [a, b] + rest;
    assert all[1..] == [b] + rest;
    assert all[1..][1..] == rest;
  }

  /** The cascade is the same as taking the first fitting rendering among the full listing,
      the merged listing and the six truncations, falling back to the summary. */
  lemma CompressedIsFirstFit(reports: seq<Report>, maxChars: int, pyVersion: string)
    ensures Compressed(reports, maxChars, pyVersion)
      == FirstFit([FullListing(reports, pyVersion), FormatReport(MergedLines(reports), pyVersion)]
                  + TruncationCandidates(reports, pyVersion), maxChars).GetOr(Summarize(reports, pyVersion))
  {
    FirstFitTwoThen(FullListing(reports, pyVersion), FormatReport(MergedLines(reports), pyVersion),
                    TruncationCandidates(reports, pyVersion), maxChars);
  }

  /** Whenever the summary line fits the budget, so does the result. */
  lemma CompressedWithinBudget(reports: seq<Report>, maxChars: int, pyVersion: string)
    requires |Summarize(reports, pyVersion)| <= maxChars
    ensures |Compressed(reports, maxChars, pyVersion)| <= maxChars
  {
  }

  // ---------------------------------------------------------------------------
  // main: from log records to the message
  // ---------------------------------------------------------------------------

  /** The records main parses, in order: every line except warnings. */
  function ParseRecords(raws: seq<RawRecord>): (r: Result<seq<LogRecord>>)
    ensures r.Ok? ==> |r.value| <= |raws|
    ensures r.Err? <==>
      (exists i :: 0 <= i < |raws| && ParseRecord(raws[i]).Err? && raws[i].reportType != "WarningMessage")
    decreases |raws|
  {
    assert forall i :: 1 <= i < |raws| ==> raws[i] == raws[1..][i - 1];
    if raws == [] then Ok([])
    else if raws[0].reportType == "WarningMessage" then ParseRecords(raws[1..])
    else
      var head :- ParseRecord(raws[0]);
      var tail :- ParseRecords(raws[1..]);
      Ok([head] + tail)
  }

  /** The first error of two parses, or their records joined. */
  function JoinParsed(x: Result<seq<LogRecord>>, y: Result<seq<LogRecord>>): Result<seq<LogRecord>> {
    if x.Err? then x else if y.Err? then y else Ok(x.value + y.value)
  }

  /** Parsing one more line in front: a warning is dropped, any other line is parsed and its
      record put first, and the first error wins. */
  function ParseInFront(raw: RawRecord, rest: Result<seq<LogRecord>>): Result<seq<LogRecord>> {
    if raw.reportType == "WarningMessage" then rest
    else if ParseRecord(raw).Err? then Err(ParseRecord(raw).error)
    else if rest.Err? then rest
    else Ok([ParseRecord(raw).value] + rest.value)
  }

  lemma ParseRecordsCons(raw: RawRecord, rest: seq<RawRecord>)
    ensures ParseRecords([raw] + rest) == ParseInFront(raw, ParseRecords(rest))
  {
    assert ([raw] + rest)[0] == raw;
    assert ([raw] + rest)[1..] == rest;
  }

  lemma ParseInFrontJoin(raw: RawRecord, x: Result<seq<LogRecord>>, y: Result<seq<LogRecord>>)
    ensures ParseInFront(raw, JoinParsed(x, y)) == JoinParsed(ParseInFront(raw, x), y)
  {
    if raw.reportType != "WarningMessage" && ParseRecord(raw).Ok? && x.Ok? && y.Ok? {
      assert [ParseRecord(raw).value] + (x.value + y.value) == ([ParseRecord(raw).value] + x.value) + y.value;
    }
  }

  /** Parsing a concatenation: the first error, or the two record lists joined. */
  lemma {:induction false} ParseRecordsAppend(a: seq<RawRecord>, b: seq<RawRecord>)
    ensures ParseRecords(a + b) == JoinParsed(ParseRecords(a), ParseRecords(b))
    decreases |a|
  {
    if a == [] {
      assert a + b == b;
      if ParseRecords(b).Ok? {
        assert [] + ParseRecords(b).value == ParseRecords(b).value;
      }
    } else {
      var h, t := a[0], a[1..];
      assert a == [h] + t;
      assert a + b == [h] + (t + b);
      ParseRecordsCons(h, t);
      ParseRecordsCons(h, t + b);
      ParseRecordsAppend(t, b);
      ParseInFrontJoin(h, ParseRecords(t), ParseRecords(b));
    }
  }

  /** One line: a warning is dropped, any other line is parsed into one record or fails. */
  lemma ParseRecordsOne(raw: RawRecord)
    ensures ParseRecords([raw])
      == if raw.reportType == "WarningMessage" then Ok([])
         else if ParseRecord(raw).Err? then Err(ParseRecord(raw).error)
         else Ok([ParseRecord(raw).value])
  {
    ParseRecordsCons(raw, []);
    assert [raw] + [] == [raw];
    if ParseRecord(raw).Ok? {
      assert [ParseRecord(raw).value] + [] == [ParseRecord(raw).value];
    }
  }

  /** The records whose outcome is "failed", in order. */
  function FailedRecords(records: seq<LogRecord>): (r: seq<LogRecord>)
    ensures forall x :: x in r <==> x in records && x.outcome == "failed"
  {
    if records == [] then []
    else (if records[0].outcome == "failed" then [records[0]] else []) + FailedRecords(records[1..])
  }

  /** Filtering a concatenation concatenates the filtered parts. */
  lemma {:induction false} FailedRecordsAppend(a: seq<LogRecord>, b: seq<LogRecord>)
    ensures FailedRecords(a + b) == FailedRecords(a) + FailedRecords(b)
    decreases |a|
  {
    if a == [] {
      assert a + b == b;
    } else {
      assert (a + b)[0] == a[0];
      assert (a + b)[1..] == a[1..] + b;
      FailedRecordsAppend(a[1..], b);
    }
  }

  /** A single record is kept iff its outcome is "failed". */
  lemma FailedRecordsOne(rec: LogRecord)
    ensures FailedRecords([rec]) == if rec.outcome == "failed" then [rec] else []
  {
    assert [rec][1..] == [];
  }

  function PreformatAll(records: seq<LogRecord>): (r: Result<seq<Preformatted>>)
    ensures r.Ok? ==> |r.value| == |records|
    ensures r.Ok? ==> forall i :: 0 <= i < |records| ==> Preformat(records[i]) == Ok(r.value[i])
    ensures r.Err? <==> exists i :: 0 <= i < |records| && Preformat(records[i]).Err?
    decreases |records|
  {
    assert forall i :: 1 <= i < |records| ==> records[i] == records[1..][i - 1];
    if records == [] then Ok([])
    else
      var head :- Preformat(records[0]);
      var tail :- PreformatAll(records[1..]);
      Ok([head] + tail)
  }

  /** The preformatted failures of a log. */
  function Failures(raws: seq<RawRecord>): Result<seq<Preformatted>> {
    var records :- ParseRecords(raws);
    PreformatAll(FailedRecords(records))
  }

  function ReportsOf(failures: seq<Preformatted>): (reports: seq<Report>)
    requires forall i :: 0 <= i < |failures| ==> failures[i].Failed?
    ensures |reports| == |failures|
    ensures forall i :: 0 <= i < |failures| ==> reports[i] == failures[i].report
  {
    seq(|failures|, i requires 0 <= i < |failures| => failures[i].report)
  }

  /** The message main writes for a log, before bisection information is prepended. */
  function Message(raws: seq<RawRecord>, pyVersion: string): Result<string> {
    var failures :- Failures(raws);
    if |failures| == 1 && failures[0].CollectionError? then
      Ok(FormatCollectionError(failures[0].name, failures[0].repr, pyVersion))
    else if forall i :: 0 <= i < |failures| ==> failures[i].Failed? then
      Ok(Compressed(ReportsOf(failures), MaxChars, pyVersion))
    else
      // format_summary reads `variant` from every entry, and a CollectionError has none.
      Err("'CollectionError' object has no attribute 'variant'")
  }

  /** main, lines 269-279: the message for a log, or the error main stops with. */
  method ReportMessage(raws: seq<RawRecord>, pyVersion: string) returns (r: Result<string>)
    ensures r == Message(raws, pyVersion)
  {
    var failures := Failures(raws);
    if failures.Err? {
      return Err(failures.error);
    }
    var fs := failures.value;
    if |fs| == 1 && fs[0].CollectionError? {
      return Ok(FormatCollectionError(fs[0].name, fs[0].repr, pyVersion));
    }
    if exists i :: 0 <= i < |fs| && !fs[i].Failed? {
      return Err("'CollectionError' object has no attribute 'variant'");
    }
    var message := CompressedReport(ReportsOf(fs), MaxChars, pyVersion);
    return Ok(message);
  }

  /** A single collection error is shown in full under the collection session's name,
      whatever its length; otherwise the failures are compressed into the budget, or only
      counted. */
  lemma MessageShape(raws: seq<RawRecord>, pyVersion: string)
    ensures var m := Message(raws, pyVersion);
      m.Ok? && |Failures(raws).value| == 1 && Failures(raws).value[0].CollectionError? ==>
        m.value == FormatCollectionError(TestCollectionStage, Failures(raws).value[0].repr, pyVersion)
    ensures var m := Message(raws, pyVersion);
      m.Ok? && !(|Failures(raws).value| == 1 && Failures(raws).value[0].CollectionError?) ==>
        |m.value| <= MaxChars || m.value == Summarize(ReportsOf(Failures(raws).value), pyVersion)
  {
    if Failures(raws).Ok? {
      CollectionErrorName(raws);
    }
  }

  /** Every collection error is named after the collection session. */
  lemma CollectionErrorName(raws: seq<RawRecord>)
    requires Failures(raws).Ok?
    ensures forall p :: p in Failures(raws).value && p.CollectionError? ==> p.name == TestCollectionStage
  {
    var failed := FailedRecords(ParseRecords(raws).value);
    var fs := Failures(raws).value;
    assert PreformatAll(failed) == Ok(fs);
    forall p | p in fs && p.CollectionError? ensures p.name == TestCollectionStage {
      var i :| 0 <= i < |fs| && fs[i] == p;
      PreformatCollectionName(failed[i]);
    }
  }

  /** Preformat names every collection error it makes after the collection session. */
  lemma PreformatCollectionName(rec: LogRecord)
    ensures Preformat(rec).Ok? && Preformat(rec).value.CollectionError? ==>
      Preformat(rec).value.name == TestCollectionStage
  {
  }
}
