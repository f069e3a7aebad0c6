/** Package snapshots and their one-line-per-package diff (track_packages.py, lines 18-64 and
    485-558). */
module PackageDiff {
  import opened Wrappers
  import opened Text

  /** The value under a rich record's "git_info" key. */
  datatype GitInfoField =
    | NoGitInfo                          // the key is absent
    | GitInfo(gitRevision: Option<string>) // a mapping; its "git_revision", if any
    | NotAMapping(typeName: string)      // null or another non-mapping value, named by its Python type

  /** What a snapshot holds for one package. */
  datatype PackageInfo =
    | NoInfo                                         // absent, or present as null
    | Legacy(version: string)                        // the old format: the version string itself
    | Rich(richVersion: Option<string>, gitInfo: GitInfoField) // {"version": ..., "git_info": ...}
    | OtherInfo                                      // any other JSON value

  /** Package name to version record, as stored for one run. */
  type Snapshot = map<string, PackageInfo>

  /** `snapshot.get(package)`. */
  function Lookup(s: Snapshot, package: string): PackageInfo {
    if package in s then s[package] else NoInfo
  }

  /** extract_version_string: the legacy string, or the rich record's "version". */
  function ExtractVersionString(info: PackageInfo): (r: Option<string>)
    ensures r.Some? <==> info.Legacy? || (info.Rich? && info.richVersion.Some?)
    ensures info.Legacy? ==> r == Some(info.version)
    ensures info.Rich? ==> r == info.richVersion
  {
    match info
    case Legacy(v) => Some(v)
    case Rich(v, _) => v
    case _ => None
  }

  /** The error Python raises when `.get` is called on a value that is not a mapping. */
  function NoGetError(typeName: string): string {
    "'" + typeName + "' object has no attribute 'get'"
  }

  /** extract_git_revision: only a rich record with a "git_info" mapping has a revision, and a
      "git_info" value that is not a mapping raises. */
  function ExtractGitRevision(info: PackageInfo): (r: Result<Option<string>>)
    ensures r.Err? <==> info.Rich? && info.gitInfo.NotAMapping?
    ensures r.Ok? && r.value.Some? ==> info.Rich? && info.gitInfo.GitInfo? && info.gitInfo.gitRevision == r.value
    ensures !info.Rich? ==> r == Ok(None)
  {
    match info
    case Rich(_, NotAMapping(t)) => Err(NoGetError(t))
    case Rich(_, GitInfo(rev)) => Ok(rev)
    case _ => Ok(None)
  }

  /** format_version_with_git: "(missing)" without a version, otherwise the version followed,
      when the revision is non-empty, by its first eight characters in parentheses. */
  function FormatVersionWithGit(info: PackageInfo): (r: Result<string>)
    ensures ExtractVersionString(info).None? ==> r == Ok("(missing)")
    ensures r.Err? <==> ExtractVersionString(info).Some? && ExtractGitRevision(info).Err?
    ensures r.Ok? && ExtractVersionString(info).Some? ==>
      var v := ExtractVersionString(info).value;
      var rev := ExtractGitRevision(info).value;
      && |v| <= |r.value| <= |v| + 11
      && r.value[..|v|] == v
      && (|r.value| == |v| <==> rev.None? || rev.value == "")
      && r.value == if rev.Some? && rev.value != "" then v + " (" + Take(rev.value, 8) + ")" else v
  {
    match ExtractVersionString(info)
    case None => Ok("(missing)")
    case Some(v) =>
      var rev :- ExtractGitRevision(info);
      if rev.Some? && rev.value != "" then Ok(v + " (" + Take(rev.value, 8) + ")")
      else Ok(v)
  }

  /** A legacy string and a rich record with the same version and no revision display alike. */
  lemma LegacyAndRichAgree(v: string, git: GitInfoField)
    requires git.NoGitInfo? || git == GitInfo(None) || git == GitInfo(Some(""))
    ensures FormatVersionWithGit(Legacy(v)) == FormatVersionWithGit(Rich(Some(v), git)) == Ok(v)
  {
  }

  /** The parenthesised hash is the first eight characters of a non-empty revision, or all of
      it when it is shorter. */
  lemma ShortHash(v: string, rev: string)
    requires rev != ""
    ensures var n := if |rev| < 8 then |rev| else 8;
      FormatVersionWithGit(Rich(Some(v), GitInfo(Some(rev)))) == Ok(v + " (" + rev[..n] + ")")
  {
    assert Take(rev, 8) == rev[..if |rev| < 8 then |rev| else 8];
  }

  // ---------------------------------------------------------------------------
  // Compare links
  // ---------------------------------------------------------------------------

  /** The GitHub repository of each package with a known release tag format. Every entry of the
      table has type "releases". */
  const PackageMetadata: map<string, string> := map[
    "numpy" := "numpy/numpy",
    "pandas" := "pandas-dev/pandas",
    "matplotlib" := "matplotlib/matplotlib",
    "scipy" := "scipy/scipy",
    "scikit-learn" := "scikit-learn/scikit-learn",
    "requests" := "psf/requests",
    "django" := "django/django",
    "flask" := "pallets/flask",
    "pytest" := "pytest-dev/pytest",
    "hypothesis" := "HypothesisWorks/hypothesis",
    "xarray" := "pydata/xarray",
    "dask" := "dask/dask",
    "jupyterlab" := "jupyterlab/jupyterlab",
    "notebook" := "jupyter/notebook",
    "ipython" := "ipython/ipython",
    "tensorflow" := "tensorflow/tensorflow",
    "torch" := "pytorch/pytorch",
    "fastapi" := "tiangolo/fastapi",
    "pydantic" := "pydantic/pydantic",
    "sqlalchemy" := "sqlalchemy/sqlalchemy",
    "black" := "psf/black",
    "mypy" := "python/mypy",
    "ruff" := "astral-sh/ruff"
  ]

  const GitHubPrefix: string := "https://github.com/"

  /** generate_package_diff_link: a compare link between the two version tags, for known
      packages only. */
  function GeneratePackageDiffLink(package: string, oldVersion: string, newVersion: string): (r: Option<string>)
    ensures r.Some? <==> package in PackageMetadata
    ensures r.Some? ==>
      var repo := PackageMetadata[package];
      var a := |GitHubPrefix| + |repo|;
      var b := a + 10 + |oldVersion|;
      && |r.value| == b + 4 + |newVersion|
      && r.value[..|GitHubPrefix|] == GitHubPrefix
      && r.value[|GitHubPrefix|..a] == repo
      && r.value[a..b] == "/compare/v" + oldVersion
      && r.value[b..] == "...v" + newVersion
  {
    if package !in PackageMetadata then None
    else
      var repo := PackageMetadata[package];
      CompareLinkLayout(repo, oldVersion, newVersion);
      Some(GitHubPrefix + repo + "/compare/" + "v" + oldVersion + "...v" + newVersion)
  }

  /** The pieces of a compare link, by position. */
  lemma CompareLinkLayout(repo: string, oldVersion: string, newVersion: string)
    ensures var link := GitHubPrefix + repo + "/compare/" + "v" + oldVersion + "...v" + newVersion;
      var a := |GitHubPrefix| + |repo|;
      var b := a + 10 + |oldVersion|;
      && |link| == b + 4 + |newVersion|
      && link[..|GitHubPrefix|] == GitHubPrefix
      && link[|GitHubPrefix|..a] == repo
      && link[a..b] == "/compare/v" + oldVersion
      && link[b..] == "...v" + newVersion
  {
    var head := GitHubPrefix + repo;
    var tail := "/compare/v" + oldVersion;
    var link := head + tail + ("...v" + newVersion);
    assert GitHubPrefix + repo + "/compare/" + "v" + oldVersion + "...v" + newVersion == link;
    assert link[..|head|] == head;
    assert link[|head|..|head| + |tail|] == tail;
  }

  // ---------------------------------------------------------------------------
  // get_package_changes
  // ---------------------------------------------------------------------------

  /** " → ". */
  const Arrow: string := " \U{2192} "

  /** The line get_package_changes emits for one package, if any, with Python's evaluation
      order: a version change formats both sides without reading the revisions, and equal
      versions read the current revision before the previous one. */
  function ChangeLine(package: string, current: PackageInfo, previous: PackageInfo): Result<Option<string>> {
    var cv := ExtractVersionString(current);
    var pv := ExtractVersionString(previous);
    if cv.None? && pv.None? then Ok(None)
    else if cv.None? then
      var prevDisplay :- FormatVersionWithGit(previous);
      Ok(Some("- " + package + ": " + prevDisplay + Arrow + "(removed)"))
    else if pv.None? then
      var currDisplay :- FormatVersionWithGit(current);
      Ok(Some("- " + package + ": (new)" + Arrow + currDisplay))
    else if cv != pv then
      var prevDisplay :- FormatVersionWithGit(previous);
      var currDisplay :- FormatVersionWithGit(current);
      match GeneratePackageDiffLink(package, pv.value, cv.value)
      case Some(link) => Ok(Some("- [" + package + ": " + prevDisplay + Arrow + currDisplay + "](" + link + ")"))
      case None => Ok(Some("- " + package + ": " + prevDisplay + Arrow + currDisplay))
    else
      var currRev :- ExtractGitRevision(current);
      var prevRev :- ExtractGitRevision(previous);
      if currRev == prevRev then Ok(None)
      else
        // Both revisions were read without error, so neither display can fail.
        var prevDisplay := FormatVersionWithGit(previous).value;
        var currDisplay := FormatVersionWithGit(current).value;
        Ok(Some("- " + package + ": " + prevDisplay + Arrow + currDisplay + " (git revision changed)"))
  }

  /** A package gets no line exactly when it is absent on both sides, or has the same version
      and the same revision on both. */
  lemma ChangeLineNone(package: string, current: PackageInfo, previous: PackageInfo)
    ensures ChangeLine(package, current, previous) == Ok(None) <==>
      || (ExtractVersionString(current).None? && ExtractVersionString(previous).None?)
      || (&& ExtractVersionString(current).Some?
          && ExtractVersionString(current) == ExtractVersionString(previous)
          && ExtractGitRevision(current).Ok?
          && ExtractGitRevision(current) == ExtractGitRevision(previous))
  {
  }

  /** A package missing on one side is reported as removed or new, whatever the other side's
      revision. */
  lemma ChangeLineRemovedOrNew(package: string, info: PackageInfo)
    requires ExtractVersionString(info).Some? && FormatVersionWithGit(info).Ok?
    ensures ChangeLine(package, NoInfo, info)
      == Ok(Some("- " + package + ": " + FormatVersionWithGit(info).value + Arrow + "(removed)"))
    ensures ChangeLine(package, info, NoInfo)
      == Ok(Some("- " + package + ": (new)" + Arrow + FormatVersionWithGit(info).value))
  {
  }

  /** A version change shows both displays, linked to the compare view when the package is in
      the table; it fails when either display cannot be read. */
  lemma ChangeLineVersionChanged(package: string, current: PackageInfo, previous: PackageInfo)
    requires ExtractVersionString(current).Some? && ExtractVersionString(previous).Some?
    requires ExtractVersionString(current) != ExtractVersionString(previous)
    ensures ChangeLine(package, current, previous).Err?
      <==> FormatVersionWithGit(previous).Err? || FormatVersionWithGit(current).Err?
    ensures ChangeLine(package, current, previous).Ok? ==>
      var prev := FormatVersionWithGit(previous).value;
      var curr := FormatVersionWithGit(current).value;
      var link := GeneratePackageDiffLink(package, ExtractVersionString(previous).value, ExtractVersionString(current).value);
      ChangeLine(package, current, previous)
        == Ok(Some(if link.Some? then "- [" + package + ": " + prev + Arrow + curr + "](" + link.value + ")"
                   else "- " + package + ": " + prev + Arrow + curr))
  {
  }

  /** Equal versions with different readable revisions (None and "" included) show both
      displays and say that only the revision changed. */
  lemma ChangeLineRevisionChanged(package: string, current: PackageInfo, previous: PackageInfo)
    requires ExtractVersionString(current).Some? && ExtractVersionString(current) == ExtractVersionString(previous)
    requires ExtractGitRevision(current).Ok? && ExtractGitRevision(previous).Ok?
    requires ExtractGitRevision(current) != ExtractGitRevision(previous)
    ensures ChangeLine(package, current, previous)
      == Ok(Some("- " + package + ": " + FormatVersionWithGit(previous).value + Arrow
                 + FormatVersionWithGit(current).value + " (git revision changed)"))
  {
  }

  /** The lines for the given keys, in order: Python's loop stops at the first error. */
  function PackageChanges(keys: seq<string>, current: Snapshot, previous: Snapshot): (r: Result<seq<string>>)
    ensures r.Ok? ==> |r.value| <= |keys|
    ensures r.Err? <==>
      exists i :: 0 <= i < |keys| && ChangeLine(keys[i], Lookup(current, keys[i]), Lookup(previous, keys[i])).Err?
    decreases |keys|
  {
    assert forall i :: 1 <= i < |keys| ==> keys[i] == keys[1..][i - 1];
    if keys == [] then Ok([])
    else
      var line :- ChangeLine(keys[0], Lookup(current, keys[0]), Lookup(previous, keys[0]));
      var rest :- PackageChanges(keys[1..], current, previous);
      Ok((if line.Some? then [line.value] else []) + rest)
  }

  /** The keys of both snapshots, in ascending order. */
  function AllPackages(current: Snapshot, previous: Snapshot): (keys: seq<string>)
    ensures forall p :: p in keys <==> p in current || p in previous
    ensures StrictlySorted(keys)
  {
    SortStrings(current.Keys + previous.Keys)
  }

  /** `lines` followed by the lines of r, or r's error. */
  function Prepend(lines: seq<string>, r: Result<seq<string>>): Result<seq<string>> {
    if r.Ok? then Ok(lines + r.value) else r
  }

  /** One package's line, then the rest. */
  lemma PackageChangesStep(keys: seq<string>, current: Snapshot, previous: Snapshot)
    requires keys != []
    ensures var line := ChangeLine(keys[0], Lookup(current, keys[0]), Lookup(previous, keys[0]));
      PackageChanges(keys, current, previous)
        == if line.Err? then Err(line.error)
           else Prepend(if line.value.Some? then [line.value.value] else [], PackageChanges(keys[1..], current, previous))
  {
  }

  lemma PrependAssoc(a: seq<string>, b: seq<string>, r: Result<seq<string>>)
    ensures Prepend(a, Prepend(b, r)) == Prepend(a + b, r)
    ensures Prepend([], r) == r
  {
    if r.Ok? {
      assert a + (b + r.value) == (a + b) + r.value;
      assert [] + r.value == r.value;
    }
  }

  /** The loop of get_package_changes over the given keys, stopping at the first error. */
  method ChangesFor(keys: seq<string>, current: Snapshot, previous: Snapshot) returns (r: Result<seq<string>>)
    ensures r == PackageChanges(keys, current, previous)
  {
    var changes: seq<string> := [];
    assert keys[0..] == keys;
    PrependAssoc([], [], PackageChanges(keys, current, previous));
    for i := 0 to |keys|
      invariant PackageChanges(keys, current, previous) == Prepend(changes, PackageChanges(keys[i..], current, previous))
    {
      PackageChangesStep(keys[i..], current, previous);
      assert keys[i..][1..] == keys[i + 1..];
      var line := ChangeLine(keys[i], Lookup(current, keys[i]), Lookup(previous, keys[i]));
      if line.Err? {
        return Err(line.error);
      }
      var lines := if line.value.Some? then [line.value.value] else [];
      PrependAssoc(changes, lines, PackageChanges(keys[i + 1..], current, previous));
      changes := changes + lines;
    }
    assert keys[|keys|..] == [];
    assert changes + [] == changes;
    r := Ok(changes);
  }

  /** get_package_changes: one line at most per package of either snapshot, in ascending
      order of package name. */
  method GetPackageChanges(current: Snapshot, previous: Snapshot) returns (r: Result<seq<string>>)
    ensures r == PackageChanges(AllPackages(current, previous), current, previous)
    ensures r.Ok? ==> |r.value| <= |current.Keys + previous.Keys|
  {
    var keys := AllPackages(current, previous);
    r := ChangesFor(keys, current, previous);
  }

  /** A snapshot none of whose rich records has a non-mapping "git_info". */
  predicate Readable(s: Snapshot) {
    forall p :: p in s ==> !(s[p].Rich? && s[p].gitInfo.NotAMapping?)
  }

  /** Comparing a readable snapshot with itself yields no lines. */
  lemma {:induction false} IdenticalSnapshots(keys: seq<string>, s: Snapshot)
    requires Readable(s)
    ensures PackageChanges(keys, s, s) == Ok([])
    decreases |keys|
  {
    if keys != [] {
      IdenticalSnapshots(keys[1..], s);
      ChangeLineNone(keys[0], Lookup(s, keys[0]), Lookup(s, keys[0]));
    }
  }

  /** Snapshots that agree on every lookup give the same lines. */
  lemma {:induction false} LookupsDecide(keys: seq<string>, c1: Snapshot, p1: Snapshot, c2: Snapshot, p2: Snapshot)
    requires forall k :: Lookup(c1, k) == Lookup(c2, k)
    requires forall k :: Lookup(p1, k) == Lookup(p2, k)
    ensures PackageChanges(keys, c1, p1) == PackageChanges(keys, c2, p2)
    decreases |keys|
  {
    if keys != [] {
      LookupsDecide(keys[1..], c1, p1, c2, p2);
      PackageChangesStep(keys, c1, p1);
      PackageChangesStep(keys, c2, p2);
    }
  }

  /** A key that yields no line can be left out of the key list. */
  lemma {:induction false} SilentKeyDropped(keys: seq<string>, current: Snapshot, previous: Snapshot, package: string)
    requires ChangeLine(package, Lookup(current, package), Lookup(previous, package)) == Ok(None)
    ensures PackageChanges(keys, current, previous) == PackageChanges(Without(keys, package), current, previous)
    decreases |keys|
  {
    if keys != [] {
      SilentKeyDropped(keys[1..], current, previous, package);
      PackageChangesStep(keys, current, previous);
      PrependAssoc([], [], PackageChanges(keys[1..], current, previous));
      if keys[0] != package {
        var w := Without(keys, package);
        assert w == [keys[0]] + Without(keys[1..], package);
        assert w[0] == keys[0] && w[1..] == Without(keys[1..], package);
        PackageChangesStep(w, current, previous);
      } else {
        assert Without(keys, package) == [] + Without(keys[1..], package);
        assert [] + Without(keys[1..], package) == Without(keys[1..], package);
      }
    }
  }

  /** A package present in neither snapshot, added to a sorted key list of both, adds no line:
      the list without it is `sorted` of the union. */
  lemma NewKeyInUnion(keys: seq<string>, current: Snapshot, previous: Snapshot, package: string)
    requires package !in current && package !in previous
    requires StrictlySorted(keys)
    requires forall p :: p in keys <==> p in current || p in previous || p == package
    ensures PackageChanges(keys, current, previous) == PackageChanges(AllPackages(current, previous), current, previous)
  {
    SilentKeyDropped(keys, current, previous, package);
    WithoutSorted(keys, package);
    SortedUnique(Without(keys, package), AllPackages(current, previous));
  }

  /** get_package_changes: a package mapped to null in the current snapshot produces exactly
      what a missing package produces, although it joins the key union. */
  lemma NullIsAbsent(current: Snapshot, previous: Snapshot, package: string)
    requires package !in current
    ensures var withNull := current[package := NoInfo];
      PackageChanges(AllPackages(withNull, previous), withNull, previous)
        == PackageChanges(AllPackages(current, previous), current, previous)
  {
    var withNull := current[package := NoInfo];
    assert forall k :: Lookup(withNull, k) == Lookup(current, k);
    LookupsDecide(AllPackages(withNull, previous), withNull, previous, current, previous);
    if package in previous {
      assert withNull.Keys + previous.Keys == current.Keys + previous.Keys;
    } else {
      NewKeyInUnion(AllPackages(withNull, previous), current, previous, package);
    }
  }

  /** The same for a package mapped to null in the previous snapshot. */
  lemma NullIsAbsentPrevious(current: Snapshot, previous: Snapshot, package: string)
    requires package !in previous
    ensures var withNull := previous[package := NoInfo];
      PackageChanges(AllPackages(current, withNull), current, withNull)
        == PackageChanges(AllPackages(current, previous), current, previous)
  {
    var withNull := previous[package := NoInfo];
    assert forall k :: Lookup(withNull, k) == Lookup(previous, k);
    LookupsDecide(AllPackages(current, withNull), current, withNull, current, previous);
    if package in current {
      assert current.Keys + withNull.Keys == current.Keys + previous.Keys;
    } else {
      NewKeyInUnion(AllPackages(current, withNull), current, previous, package);
    }
  }

  /** The lines of a concatenation of key lists: the first list's error, or its lines followed
      by the second list's lines or error. With AllPackages' ascending keys, this puts the
      lines in ascending package order. */
  lemma {:induction false} PackageChangesAppend(a: seq<string>, b: seq<string>, current: Snapshot, previous: Snapshot)
    ensures var first := PackageChanges(a, current, previous);
      PackageChanges(a + b, current, previous)
        == if first.Err? then first else Prepend(first.value, PackageChanges(b, current, previous))
    decreases |a|
  {
    var rest := PackageChanges(b, current, previous);
    if a == [] {
      assert a + b == b;
      PrependAssoc([], [], rest);
    } else {
      assert (a + b)[0] == a[0] && (a + b)[1..] == a[1..] + b;
      PackageChangesStep(a + b, current, previous);
      PackageChangesStep(a, current, previous);
      PackageChangesAppend(a[1..], b, current, previous);
      var line := ChangeLine(a[0], Lookup(current, a[0]), Lookup(previous, a[0]));
      if line.Ok? && PackageChanges(a[1..], current, previous).Ok? {
        var lines := if line.value.Some? then [line.value.value] else [];
        PrependAssoc(lines, PackageChanges(a[1..], current, previous).value, rest);
      }
    }
  }

  /** The lines of one key: its change line, nothing, or its error. */
  lemma PackageChangesOne(package: string, current: Snapshot, previous: Snapshot)
    ensures PackageChanges([package], current, previous)
      == match ChangeLine(package, Lookup(current, package), Lookup(previous, package))
         case Err(e) => Err(e)
         case Ok(None) => Ok([])
         case Ok(Some(line)) => Ok([line])
  {
    PackageChangesStep([package], current, previous);
    assert [package][1..] == [];
    PrependAssoc([], [], Ok([]));
    var line := ChangeLine(package, Lookup(current, package), Lookup(previous, package));
    if line.Ok? && line.value.Some? {
      assert [line.value.value] + [] == [line.value.value];
    }
  }
}
