/** The git-hash heuristic of capture_versions.py: a hand-written matcher for the three
    case-insensitive patterns `\.g([a-f0-9]{7,40})`, `\+g([a-f0-9]{7,40})` and
    `g([a-f0-9]{7,40})`, tried in that order with `re.search`. */
module GitHash {
  import opened Wrappers
  import opened Text

  /** `[a-f0-9]` under IGNORECASE. */
  predicate IsHexDigit(c: char) {
    '0' <= c <= '9' || 'a' <= c <= 'f' || 'A' <= c <= 'F'
  }

  /** `g` under IGNORECASE. */
  predicate IsG(c: char) {
    c == 'g' || c == 'G'
  }

  const MinHex: nat := 7
  const MaxHex: nat := 40

  datatype Pattern = DotG | PlusG | BareG

  /** The patterns in the order they are tried. */
  const Patterns: seq<Pattern> := [DotG, PlusG, BareG]

  /** The part of a pattern before its capture group matches at index i. */
  predicate PrefixAt(s: string, p: Pattern, i: nat) {
    match p
    case DotG => i + 2 <= |s| && s[i] == '.' && IsG(s[i + 1])
    case PlusG => i + 2 <= |s| && s[i] == '+' && IsG(s[i + 1])
    case BareG => i + 1 <= |s| && IsG(s[i])
  }

  /** Where the capture group starts for a match of p at i. */
  function GroupStart(p: Pattern, i: nat): nat {
    if p == BareG then i + 1 else i + 2
  }

  /** At least n hex digits start at index h. */
  predicate HasHexRun(s: string, h: nat, n: nat) {
    h + n <= |s| && forall j :: h <= j < h + n ==> IsHexDigit(s[j])
  }

  /** The capture group of a match of p that starts exactly at index i, if there is one:
      the hex run after the prefix, greedily extended up to MaxHex digits. */
  function MatchAt(s: string, p: Pattern, i: nat): (r: Option<string>)
    ensures r.Some? <==> PrefixAt(s, p, i) && HasHexRun(s, GroupStart(p, i), MinHex)
    ensures r.Some? ==>
      var h := GroupStart(p, i);
      && MinHex <= |r.value| <= MaxHex
      && h + |r.value| <= |s|
      && r.value == s[h..h + |r.value|]
      && (forall c :: c in r.value ==> IsHexDigit(c))
      && (|r.value| == MaxHex || h + |r.value| == |s| || !IsHexDigit(s[h + |r.value|]))
  {
    if !PrefixAt(s, p, i) then None
    else
      var h := GroupStart(p, i);
      var run := Span(s, h, IsHexDigit);
      if run < MinHex then
        assert !HasHexRun(s, h, MinHex) by {
          assert h + run == |s| || !IsHexDigit(s[h + run]);
        }
        None
      else
        var k := if run < MaxHex then run else MaxHex;
        Some(s[h..h + k])
  }

  /** `re.search` from index i: the leftmost index at or after i where p matches. */
  function Leftmost(s: string, p: Pattern, i: nat): (r: Option<nat>)
    ensures r.Some? ==> i <= r.value <= |s| && MatchAt(s, p, r.value).Some?
    ensures r.Some? ==> forall k :: i <= k < r.value ==> MatchAt(s, p, k).None?
    ensures r.None? ==> forall k :: i <= k <= |s| ==> MatchAt(s, p, k).None?
    decreases |s| + 1 - i
  {
    if i > |s| then None
    else if MatchAt(s, p, i).Some? then Some(i)
    else Leftmost(s, p, i + 1)
  }

  /** The first pattern, in list order, that matches anywhere, at its leftmost match. */
  function FirstPattern(s: string, ps: seq<Pattern>): Option<string> {
    if ps == [] then None
    else
      match Leftmost(s, ps[0], 0)
      case Some(j) => MatchAt(s, ps[0], j)
      case None => FirstPattern(s, ps[1..])
  }

  /** A `g` or `G` at index i followed by at least MinHex hex digits. */
  predicate GitHashAt(s: string, i: nat) {
    i < |s| && IsG(s[i]) && HasHexRun(s, i + 1, MinHex)
  }

  /** extract_git_hash_from_version. */
  function ExtractGitHash(version: string): Option<string> {
    FirstPattern(version, Patterns)
  }

  /** The hash h occupies indices j to j + |h| of s, just after a `g` or `G`. */
  predicate FollowsG(s: string, j: nat, h: string) {
    1 <= j && j + |h| <= |s| && IsG(s[j - 1]) && s[j..j + |h|] == h
  }

  /** A hash found is a run of 7 to 40 hex digits copied from the input just after a `g` or
      `G`, keeping the input's case. */
  lemma ExtractGitHashShape(version: string)
    requires ExtractGitHash(version).Some?
    ensures var h := ExtractGitHash(version).value;
      && MinHex <= |h| <= MaxHex
      && (forall c :: c in h ==> IsHexDigit(c))
      && exists j :: FollowsG(version, j, h)
  {
    var p, i := FirstPatternFound(version, Patterns);
    var h := ExtractGitHash(version).value;
    assert FollowsG(version, GroupStart(p, i), h);
  }

  /** Nothing is found exactly when no `g` or `G` is followed by seven hex digits: the bare
      pattern, tried last, catches every such place the first two miss. */
  lemma ExtractGitHashNone(version: string)
    ensures ExtractGitHash(version).None? <==> forall i :: 0 <= i < |version| ==> !GitHashAt(version, i)
  {
    var p, i := FirstPatternFound(version, Patterns);
    if ExtractGitHash(version).None? {
      assert BareG in Patterns;
      forall k | 0 <= k < |version| ensures !GitHashAt(version, k) {
        assert MatchAt(version, BareG, k).None?;
      }
    } else {
      assert GitHashAt(version, GroupStart(p, i) - 1);
    }
  }

  /** The pattern and index whose group FirstPattern returns; when it returns nothing, no
      pattern of the list matches anywhere. */
  lemma {:induction false} FirstPatternFound(s: string, ps: seq<Pattern>) returns (p: Pattern, j: nat)
    ensures FirstPattern(s, ps).Some? ==> p in ps && MatchAt(s, p, j) == FirstPattern(s, ps)
    ensures FirstPattern(s, ps).None? ==> forall q :: q in ps ==> Leftmost(s, q, 0).None?
    decreases |ps|
  {
    p, j := BareG, 0;
    if ps != [] {
      match Leftmost(s, ps[0], 0)
      case Some(k) =>
        p, j := ps[0], k;
      case None =>
        p, j := FirstPatternFound(s, ps[1..]);
        assert forall q :: q in ps ==> q == ps[0] || q in ps[1..];
    }
  }

  /** The search stops at the first index where the pattern matches. */
  lemma {:induction false} LeftmostAt(s: string, p: Pattern, i: nat, j: nat)
    requires i <= j <= |s| && MatchAt(s, p, j).Some?
    requires forall k :: i <= k < j ==> MatchAt(s, p, k).None?
    ensures Leftmost(s, p, i) == Some(j)
    decreases j - i
  {
    if i < j {
      LeftmostSkip(s, p, i);
      LeftmostAt(s, p, i + 1, j);
    } else {
      LeftmostHere(s, p, i);
    }
  }

  /** The search stops where the pattern matches. */
  lemma LeftmostHere(s: string, p: Pattern, i: nat)
    requires i <= |s| && MatchAt(s, p, i).Some?
    ensures Leftmost(s, p, i) == Some(i)
  {
  }

  /** The search moves past an index where the pattern does not match. */
  lemma LeftmostSkip(s: string, p: Pattern, i: nat)
    requires i <= |s| && MatchAt(s, p, i).None?
    ensures Leftmost(s, p, i) == Leftmost(s, p, i + 1)
  {
  }

  /** A pattern that matches nowhere from i on is not found from i. */
  lemma {:induction false} LeftmostNone(s: string, p: Pattern, i: nat)
    requires forall k :: i <= k <= |s| ==> MatchAt(s, p, k).None?
    ensures Leftmost(s, p, i).None?
    decreases |s| + 1 - i
  {
    if i <= |s| {
      LeftmostNone(s, p, i + 1);
    }
  }

  /** The patterns are tried in order: a `.g` match anywhere wins over `+g` and bare `g`
      matches further left. */
  lemma DotWins(s: string, j: nat)
    requires Leftmost(s, DotG, 0) == Some(j)
    ensures ExtractGitHash(s) == MatchAt(s, DotG, j)
  {
  }

  /** Without a `.g` match, the leftmost `+g` match wins over a bare `g` match further left. */
  lemma PlusBeforeBare(s: string, j: nat)
    requires Leftmost(s, DotG, 0).None? && Leftmost(s, PlusG, 0) == Some(j)
    ensures ExtractGitHash(s) == MatchAt(s, PlusG, j)
  {
    assert Patterns[1..] == [PlusG, BareG];
    assert FirstPattern(s, Patterns) == FirstPattern(s, [PlusG, BareG]);
  }
}
