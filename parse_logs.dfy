/** Reading pytest's report-log records and turning the failed ones into one-line reports
    (parse_logs.py). */
module ParseLogs {
  import opened Wrappers
  import opened Text

  /** The name given to a collection failure that has no node id. */
  const TestCollectionStage := "test collection session"

  // ---------------------------------------------------------------------------
  // Terminal escape sequences (ECMA-48 sections 5.3 and 5.4)
  // ---------------------------------------------------------------------------

  const ESC: char := '\U{1B}'

  /** Parameter bytes 0x30-0x3F. */
  predicate IsParameterByte(c: char) { '0' <= c <= '?' }
  /** Intermediate bytes 0x20-0x2F. */
  predicate IsIntermediateByte(c: char) { ' ' <= c <= '/' }
  /** Final bytes 0x40-0x7E. */
  predicate IsFinalByte(c: char) { '@' <= c <= '~' }
  /** Bytes 0x40-0x5F that end a two-character Fe escape; '[' is one of them. */
  predicate IsFeByte(c: char) { '@' <= c <= '_' }

  /** Length of the CSI sequence `ESC [ P* I* F` at the start of s, or 0 if none starts there.
      The three byte ranges are disjoint, so the regex's backtracking can never shorten a run
      of parameter or intermediate bytes to reach a final byte: the runs are maximal. */
  function CsiLength(s: string): (n: nat)
    ensures n == 0 || (3 <= n <= |s| && s[0] == ESC && s[1] == '[' && IsFinalByte(s[n - 1]))
  {
    if |s| < 2 || s[0] != ESC || s[1] != '[' then 0
    else
      var p := Span(s, 2, IsParameterByte);
      var q := Span(s, 2 + p, IsIntermediateByte);
      if 2 + p + q < |s| && IsFinalByte(s[2 + p + q]) then 3 + p + q else 0
  }

  /** Length of the escape sequence the regex removes at the start of s: the CSI alternative
      first, then a single Fe byte; 0 when neither matches. */
  function EscapeLength(s: string): (n: nat)
    ensures n == 0 || (2 <= n <= |s| && s[0] == ESC)
  {
    var csi := CsiLength(s);
    if csi > 0 then csi
    else if 2 <= |s| && s[0] == ESC && IsFeByte(s[1]) then 2
    else 0
  }

  /** strip_ansi: removes every escape sequence, scanning left to right as `re.sub` does. */
  function StripAnsi(s: string): (r: string)
    ensures |r| <= |s|
    decreases |s|
  {
    if s == [] then []
    else if EscapeLength(s) > 0 then StripAnsi(s[EscapeLength(s)..])
    else [s[0]] + StripAnsi(s[1..])
  }

  /** One escape sequence, as the two families are described in ECMA-48. */
  datatype Escape =
    | Csi(params: string, intermediates: string, final: char)
    | Fe(byte: char)

  predicate ValidEscape(e: Escape) {
    match e
    case Csi(p, i, f) =>
      (forall k :: 0 <= k < |p| ==> IsParameterByte(p[k]))
      && (forall k :: 0 <= k < |i| ==> IsIntermediateByte(i[k]))
      && IsFinalByte(f)
    case Fe(b) => IsFeByte(b) && b != '['
  }

  function EscapeText(e: Escape): string {
    match e
    case Csi(p, i, f) => [ESC, '['] + p + i + [f]
    case Fe(b) => [ESC, b]
  }

  function ConcatEscapes(es: seq<Escape>): string {
    if es == [] then "" else EscapeText(es[0]) + ConcatEscapes(es[1..])
  }

  predicate NoEsc(s: string) { ESC !in s }

  /** A complete escape sequence is removed whole, whatever follows it. */
  lemma StripAnsiEscape(e: Escape, rest: string)
    requires ValidEscape(e)
    ensures StripAnsi(EscapeText(e) + rest) == StripAnsi(rest)
  {
    var t := EscapeText(e);
    var s := t + rest;
    match e
    case Csi(p, i, f) =>
      CsiLengthOf(p, i, f, rest);
    case Fe(b) =>
      assert EscapeLength(s) == 2;
    assert s[|t|..] == rest;
    StripAnsiSkip(s, |t|);
  }

  /** The CSI sequence `ESC [ p i f` is recognised with its full length. */
  lemma CsiLengthOf(p: string, i: string, f: char, rest: string)
    requires ValidEscape(Csi(p, i, f))
    ensures EscapeLength(EscapeText(Csi(p, i, f)) + rest) == |EscapeText(Csi(p, i, f))|
  {
    var s := EscapeText(Csi(p, i, f)) + rest;
    assert s == [ESC, '['] + (p + i + ([f] + rest));
    ParameterRun(p, i, [f] + rest);
    IntermediateRun(p, i, [f] + rest);
    assert s[2 + |p| + |i|] == f;
    CsiRuns(s, |p|, |i|);
  }

  /** The escape length read off the two runs after `ESC [` and the byte after them. */
  lemma CsiRuns(s: string, a: nat, b: nat)
    requires 2 <= |s| && s[0] == ESC && s[1] == '['
    requires 2 + a <= |s| && Span(s, 2, IsParameterByte) == a
    requires Span(s, 2 + a, IsIntermediateByte) == b
    ensures 2 + a + b < |s| && IsFinalByte(s[2 + a + b]) ==> EscapeLength(s) == 3 + a + b
    ensures !(2 + a + b < |s| && IsFinalByte(s[2 + a + b])) ==> EscapeLength(s) == 2
  {
  }

  /** An escape sequence of length n at the start is dropped. */
  lemma StripAnsiSkip(s: string, n: nat)
    requires s != [] && EscapeLength(s) == n && n > 0
    ensures StripAnsi(s) == StripAnsi(s[n..])
  {
  }

  /** A character other than ESC at the start is kept. */
  lemma StripAnsiKeep(s: string)
    requires s != [] && s[0] != ESC
    ensures StripAnsi(s) == [s[0]] + StripAnsi(s[1..])
  {
  }

  /** Text without ESC passes through unchanged, in front of whatever follows. */
  lemma {:induction false} StripAnsiPlainPrefix(a: string, b: string)
    requires NoEsc(a)
    ensures StripAnsi(a + b) == a + StripAnsi(b)
    decreases |a|
  {
    if a != [] {
      var s := a + b;
      assert s[0] == a[0];
      StripAnsiKeep(s);
      assert s[1..] == a[1..] + b;
      StripAnsiPlainPrefix(a[1..], b);
      assert a == [a[0]] + a[1..];
    } else {
      assert a + b == b;
    }
  }

  /** Text with no ESC is left unchanged. */
  lemma StripAnsiNoEscape(s: string)
    requires NoEsc(s)
    ensures StripAnsi(s) == s
  {
    StripAnsiPlainPrefix(s, "");
    assert s + "" == s;
  }

  /** A string made only of escape sequences strips to "". */
  lemma {:induction false} StripAnsiOnlyEscapes(es: seq<Escape>)
    requires forall k :: 0 <= k < |es| ==> ValidEscape(es[k])
    ensures StripAnsi(ConcatEscapes(es)) == ""
    decreases |es|
  {
    if es != [] {
      StripAnsiEscape(es[0], ConcatEscapes(es[1..]));
      StripAnsiOnlyEscapes(es[1..]);
    }
  }

  /** An escape embedded in plain text disappears: `"some " + e + "text"` becomes `"some text"`. */
  lemma StripAnsiEmbedded(a: string, e: Escape, b: string)
    requires NoEsc(a) && NoEsc(b) && ValidEscape(e)
    ensures StripAnsi(a + EscapeText(e) + b) == a + b
  {
    assert a + EscapeText(e) + b == a + (EscapeText(e) + b);
    StripAnsiPlainPrefix(a, EscapeText(e) + b);
    StripAnsiEscape(e, b);
    StripAnsiNoEscape(b);
  }

  /** '[' is itself an Fe byte: an `ESC [` that does not start a complete CSI sequence, such as
      a cut-off `ESC [ 3 1`, is still removed as two characters, and the parameter and
      intermediate bytes after it are kept. */
  lemma StripAnsiIncompleteCsi(p: string, i: string, rest: string)
    requires forall k :: 0 <= k < |p| ==> IsParameterByte(p[k])
    requires forall k :: 0 <= k < |i| ==> IsIntermediateByte(i[k])
    requires rest == [] || !(IsParameterByte(rest[0]) || IsIntermediateByte(rest[0]) || IsFinalByte(rest[0]))
    ensures StripAnsi([ESC, '['] + p + i + rest) == p + i + StripAnsi(rest)
  {
    assert [ESC, '['] + p + i + rest == [ESC, '['] + (p + i + rest);
    IncompleteCsiDropped(p, i, rest);
    PlainRunsKept(p, i, rest);
  }

  /** The `ESC [` in front of unfinished runs is dropped on its own. */
  lemma IncompleteCsiDropped(p: string, i: string, rest: string)
    requires forall k :: 0 <= k < |p| ==> IsParameterByte(p[k])
    requires forall k :: 0 <= k < |i| ==> IsIntermediateByte(i[k])
    requires rest == [] || !(IsParameterByte(rest[0]) || IsIntermediateByte(rest[0]) || IsFinalByte(rest[0]))
    ensures StripAnsi([ESC, '['] + (p + i + rest)) == StripAnsi(p + i + rest)
  {
    IncompleteCsiLength(p, i, rest);
    SkipEscBracket(p + i + rest);
  }

  /** Parameter and intermediate runs pass through unchanged. */
  lemma PlainRunsKept(p: string, i: string, rest: string)
    requires forall k :: 0 <= k < |p| ==> IsParameterByte(p[k])
    requires forall k :: 0 <= k < |i| ==> IsIntermediateByte(i[k])
    ensures StripAnsi(p + i + rest) == p + i + StripAnsi(rest)
  {
    PlainRuns(p, i);
    StripAnsiPlainPrefix(p + i, rest);
  }

  /** An `ESC [` matched as a two-character escape is dropped. */
  lemma SkipEscBracket(x: string)
    requires EscapeLength([ESC, '['] + x) == 2
    ensures StripAnsi([ESC, '['] + x) == StripAnsi(x)
  {
    var s := [ESC, '['] + x;
    StripAnsiSkip(s, 2);
    assert s[2..] == x;
  }

  /** An `ESC [` whose parameter and intermediate runs are not closed by a final byte is
      matched only as a two-character Fe escape. */
  lemma IncompleteCsiLength(p: string, i: string, rest: string)
    requires forall k :: 0 <= k < |p| ==> IsParameterByte(p[k])
    requires forall k :: 0 <= k < |i| ==> IsIntermediateByte(i[k])
    requires rest == [] || !(IsParameterByte(rest[0]) || IsIntermediateByte(rest[0]) || IsFinalByte(rest[0]))
    ensures EscapeLength([ESC, '['] + (p + i + rest)) == 2
  {
    var s := [ESC, '['] + (p + i + rest);
    ParameterRun(p, i, rest);
    IntermediateRun(p, i, rest);
    CsiRuns(s, |p|, |i|);
  }

  /** The parameter run after `ESC [` is exactly p. */
  lemma ParameterRun(p: string, i: string, rest: string)
    requires forall k :: 0 <= k < |p| ==> IsParameterByte(p[k])
    requires i == [] || IsIntermediateByte(i[0])
    requires i != [] || rest == [] || !IsParameterByte(rest[0])
    ensures Span([ESC, '['] + (p + i + rest), 2, IsParameterByte) == |p|
  {
    var s := [ESC, '['] + (p + i + rest);
    assert forall j :: 2 <= j < 2 + |p| ==> s[j] == p[j - 2];
    SpanIs(s, 2, IsParameterByte, |p|);
  }

  /** The intermediate run after p is exactly i. */
  lemma IntermediateRun(p: string, i: string, rest: string)
    requires forall k :: 0 <= k < |i| ==> IsIntermediateByte(i[k])
    requires rest == [] || !IsIntermediateByte(rest[0])
    ensures Span([ESC, '['] + (p + i + rest), 2 + |p|, IsIntermediateByte) == |i|
  {
    var s := [ESC, '['] + (p + i + rest);
    assert forall j :: 2 + |p| <= j < 2 + |p| + |i| ==> s[j] == i[j - 2 - |p|];
    SpanIs(s, 2 + |p|, IsIntermediateByte, |i|);
  }

  /** Parameter and intermediate bytes are never ESC. */
  lemma PlainRuns(p: string, i: string)
    requires forall k :: 0 <= k < |p| ==> IsParameterByte(p[k])
    requires forall k :: 0 <= k < |i| ==> IsIntermediateByte(i[k])
    ensures NoEsc(p + i)
  {
    assert forall k :: 0 <= k < |p + i| ==> (p + i)[k] != ESC;
  }

  // ---------------------------------------------------------------------------
  // Node ids: `filepath::name[variant]`
  // ---------------------------------------------------------------------------

  /** A parsed node id; name and variant are absent for a collection-level id. */
  datatype NodeId = NodeId(filepath: string, name: Option<string>, variant: Option<string>)

  /** The text a node id is written as. */
  function NodeIdText(id: NodeId): string {
    id.filepath
    + (match id.name case Some(n) => "::" + n case None => "")
    + (match id.variant case Some(v) => "[" + v + "]" case None => "")
  }

  /** The regex's `.` matches any character but a newline. */
  predicate NoNewline(s: string) { '\n' !in s }

  function VariantSuffix(v: Option<string>): string {
    match v case Some(x) => "[" + x + "]" case None => ""
  }

  /** The lazy `name` group followed by the optional `[variant]` group, matched against all of t,
      trying name lengths j, j + 1, ... in turn. */
  function MatchName(t: string, j: nat): Option<(string, Option<string>)>
    requires 1 <= j
    decreases |t| + 1 - j
  {
    if j > |t| || !NoNewline(t[..j]) then None
    else
      var u := t[j..];
      if 3 <= |u| && u[0] == '[' && u[|u| - 1] == ']' && NoNewline(u[1..|u| - 1]) then
        Some((t[..j], Some(u[1..|u| - 1])))
      else if u == [] then Some((t[..j], None))
      else MatchName(t, j + 1)
  }

  /** t is a non-empty name without newlines, followed by the bracketed variant if any. */
  predicate IsNameMatch(t: string, m: (string, Option<string>)) {
    && m.0 != "" && NoNewline(m.0)
    && (m.1.Some? ==> m.1.value != "" && NoNewline(m.1.value))
    && t == m.0 + VariantSuffix(m.1)
  }

  /** What the name groups capture splits the rest exactly into name and variant. */
  lemma {:induction false} MatchNameSound(t: string, j: nat)
    requires 1 <= j
    ensures MatchName(t, j).Some? ==> IsNameMatch(t, MatchName(t, j).value)
    decreases |t| + 1 - j
  {
    if j <= |t| && NoNewline(t[..j]) {
      var u := t[j..];
      if 3 <= |u| && u[0] == '[' && u[|u| - 1] == ']' && NoNewline(u[1..|u| - 1]) {
        SplitBracketed(t, j);
      } else if u == [] {
        assert t == t[..j];
      } else {
        MatchNameSound(t, j + 1);
      }
    }
  }

  /** A text ending in `[v]` from index j is its first j characters and that suffix. */
  lemma SplitBracketed(t: string, j: nat)
    requires j + 3 <= |t| && t[j] == '[' && t[|t| - 1] == ']'
    ensures t == t[..j] + VariantSuffix(Some(t[j..][1..|t| - j - 1]))
  {
    var v := t[j + 1..|t| - 1];
    assert t[j..][1..|t| - j - 1] == v;
    BracketedTail(t[j..], v);
    assert t == t[..j] + t[j..];
  }

  lemma BracketedTail(u: string, v: string)
    requires 3 <= |u| && u[0] == '[' && u[|u| - 1] == ']' && v == u[1..|u| - 1]
    ensures u == "[" + v + "]"
  {
    assert u == [u[0]] + u[1..|u| - 1] + [u[|u| - 1]];
  }

  /** id is a match of the whole of s whose filepath is at least i characters long. */
  predicate IsSplitMatch(s: string, id: NodeId, i: nat) {
    var f := id.filepath;
    && NodeIdText(id) == s && id.name.Some? && NoNewline(s)
    && i <= |f| && |f| + 2 < |s| && s[|f|] == ':' && s[|f| + 1] == ':'
  }

  lemma SplitMatch(s: string, i: nat, n: string, v: Option<string>)
    requires 1 <= i && i + 2 <= |s| && NoNewline(s[..i]) && s[i] == ':' && s[i + 1] == ':'
    requires s[i + 2..] == n + VariantSuffix(v) && n != "" && NoNewline(n)
    requires v.Some? ==> NoNewline(v.value)
    ensures IsSplitMatch(s, NodeId(s[..i], Some(n), v), i)
  {
    assert s == s[..i] + "::" + (n + VariantSuffix(v));
    assert NoNewline(VariantSuffix(v));
  }

  /** The lazy `filepath` group: the first split point i at which "::" and the rest match. */
  function MatchFrom(s: string, i: nat): Option<NodeId>
    requires 1 <= i
    decreases |s| - i
  {
    if i + 2 > |s| || !NoNewline(s[..i]) then None
    else if s[i] == ':' && s[i + 1] == ':' && MatchName(s[i + 2..], 1).Some? then
      var nv := MatchName(s[i + 2..], 1).value;
      Some(NodeId(s[..i], Some(nv.0), nv.1))
    else MatchFrom(s, i + 1)
  }

  /** A match found from split point i is a full match of s with a filepath of at least i
      characters. */
  lemma {:induction false} MatchFromSound(s: string, i: nat)
    requires 1 <= i
    ensures MatchFrom(s, i).Some? ==> IsSplitMatch(s, MatchFrom(s, i).value, i)
    decreases |s| - i
  {
    if i + 2 <= |s| && NoNewline(s[..i]) {
      if s[i] == ':' && s[i + 1] == ':' && MatchName(s[i + 2..], 1).Some? {
        MatchNameSound(s[i + 2..], 1);
        var nv := MatchName(s[i + 2..], 1).value;
        SplitMatch(s, i, nv.0, nv.1);
      } else {
        MatchFromSound(s, i + 1);
      }
    }
  }

  /** There is a "::" after a non-empty prefix and before a non-empty rest. */
  predicate HasNameSeparator(s: string) {
    exists i :: 1 <= i && i + 2 < |s| && s[i] == ':' && s[i + 1] == ':'
  }

  /** parse_nodeid: a full match of `(.+?)::(.+?)(?:\[(.+)\])?`, or "unknown test id". */
  function ParseNodeId(s: string): (r: Result<NodeId>)
    ensures r.Ok? ==> NodeIdText(r.value) == s && r.value.filepath != "" && r.value.name.Some?
    ensures r.Err? ==> r.error == "unknown test id: " + s
    ensures r.Ok? <==> NoNewline(s) && HasNameSeparator(s)
  {
    var m := MatchFrom(s, 1);
    if m.Some? then
      MatchFromSound(s, 1);
      assert HasNameSeparator(s) by { assert IsSplitMatch(s, m.value, 1); }
      Ok(m.value)
    else
      assert !(NoNewline(s) && HasNameSeparator(s)) by {
        if NoNewline(s) && HasNameSeparator(s) {
          var i :| 1 <= i && i + 2 < |s| && s[i] == ':' && s[i + 1] == ':';
          MatchFromFinds(s, 1, i);
        }
      }
      Err("unknown test id: " + s)
  }

  lemma {:induction false} MatchNameFinds(t: string, j: nat)
    requires NoNewline(t) && 1 <= j <= |t|
    ensures MatchName(t, j).Some?
    decreases |t| - j
  {
    var u := t[j..];
    if !(3 <= |u| && u[0] == '[' && u[|u| - 1] == ']' && NoNewline(u[1..|u| - 1])) && u != [] {
      MatchNameFinds(t, j + 1);
    }
  }

  lemma {:induction false} MatchFromFinds(s: string, i: nat, i0: nat)
    requires NoNewline(s) && 1 <= i <= i0 && i0 + 2 < |s| && s[i0] == ':' && s[i0 + 1] == ':'
    ensures MatchFrom(s, i).Some?
    decreases i0 - i
  {
    if s[i] == ':' && s[i + 1] == ':' {
      MatchNameFinds(s[i + 2..], 1);
    } else {
      MatchFromFinds(s, i + 1, i0);
    }
  }

  /** Before the first "::" the scan moves on without matching. */
  lemma {:induction false} MatchFromSkipsFilepath(f: string, rest: string, i: nat)
    requires NoNewline(f) && !HasDoubleColon(f + ":") && 1 <= i <= |f|
    requires |rest| >= 2 && rest[0] == ':' && rest[1] == ':'
    ensures MatchFrom(f + rest, i) == MatchFrom(f + rest, |f|)
  {
    var s := f + rest;
    forall k | i <= k < |f| ensures !(s[k] == ':' && s[k + 1] == ':') {
      NoColonPairAt(f + ":", k);
      assert (f + ":")[k] == s[k] && (f + ":")[k + 1] == s[k + 1];
    }
    forall k | 0 <= k < |f| ensures s[k] != '\n' {
      assert s[k] == f[k];
    }
    MatchFromSkips(s, i, |f|);
  }

  /** The filepath group grows past every position in [i, e) where no "::" starts. */
  lemma {:induction false} MatchFromSkips(s: string, i: nat, e: nat)
    requires 1 <= i <= e && e + 2 <= |s|
    requires forall k :: 0 <= k < e ==> s[k] != '\n'
    requires forall k :: i <= k < e ==> !(s[k] == ':' && s[k + 1] == ':')
    ensures MatchFrom(s, i) == MatchFrom(s, e)
    decreases e - i
  {
    if i < e {
      NoNewlineUpTo(s, i);
      MatchFromStep(s, i);
      MatchFromSkips(s, i + 1, e);
    }
  }

  lemma NoNewlineUpTo(s: string, i: nat)
    requires i <= |s| && forall k :: 0 <= k < i ==> s[k] != '\n'
    ensures NoNewline(s[..i])
  {
    forall k | 0 <= k < i ensures s[..i][k] != '\n' { assert s[..i][k] == s[k]; }
  }

  lemma NoColonPairAt(g: string, i: nat)
    requires !HasDoubleColon(g) && i + 1 < |g|
    ensures !(g[i] == ':' && g[i + 1] == ':')
  {
  }

  lemma NoNewlinePrefix(f: string, rest: string, i: nat)
    requires NoNewline(f) && i <= |f|
    ensures NoNewline((f + rest)[..i])
  {
    assert (f + rest)[..i] == f[..i];
    forall k | 0 <= k < i ensures f[..i][k] != '\n' { assert f[..i][k] == f[k]; }
  }

  /** Where no "::" starts, the filepath group grows by one character. */
  lemma MatchFromStep(s: string, i: nat)
    requires 1 <= i && i + 2 <= |s| && NoNewline(s[..i]) && !(s[i] == ':' && s[i + 1] == ':')
    ensures MatchFrom(s, i) == MatchFrom(s, i + 1)
  {
  }

  /** At a "::" whose rest matches, the filepath group stops. */
  lemma MatchFromHit(s: string, i: nat)
    requires 1 <= i && i + 2 <= |s| && NoNewline(s[..i]) && s[i] == ':' && s[i + 1] == ':'
    requires MatchName(s[i + 2..], 1).Some?
    ensures MatchFrom(s, i)
      == Some(NodeId(s[..i], Some(MatchName(s[i + 2..], 1).value.0), MatchName(s[i + 2..], 1).value.1))
  {
  }

  /** The name group stops where the rest is empty or a bracketed variant. */
  lemma MatchNameAtEnd(n: string, v: Option<string>)
    requires n != "" && NoNewline(n)
    requires v.Some? ==> v.value != "" && NoNewline(v.value)
    ensures MatchName(n + VariantSuffix(v), |n|) == Some((n, v))
  {
    var t := n + VariantSuffix(v);
    assert t[..|n|] == n;
    var u := t[|n|..];
    assert u == VariantSuffix(v);
    match v
    case Some(x) =>
      assert u[1..|u| - 1] == x;
    case None =>
  }

  /** Before the end of a name without '[' the scan moves on without matching. */
  lemma {:induction false} MatchNameSkipsName(n: string, tail: string, j: nat)
    requires NoNewline(n) && '[' !in n && 1 <= j <= |n|
    ensures MatchName(n + tail, j) == MatchName(n + tail, |n|)
    decreases |n| - j
  {
    var t := n + tail;
    if j < |n| {
      assert t[..j] == n[..j];
      assert t[j] == n[j];
      MatchNameSkipsName(n, tail, j + 1);
    }
  }

  /** Parsing undoes writing: `f::n[v]` gives (f, n, v) and `f::n` gives (f, n, None), for a
      filepath that neither contains "::" nor ends with ':', a name without '[', and text
      without newlines (the regex's `.` does not match one). */
  lemma ParseNodeIdRoundTrip(f: string, n: string, v: Option<string>)
    requires f != "" && NoNewline(f) && !HasDoubleColon(f + ":")
    requires n != "" && NoNewline(n) && '[' !in n
    requires v.Some? ==> v.value != "" && NoNewline(v.value)
    ensures ParseNodeId(NodeIdText(NodeId(f, Some(n), v))) == Ok(NodeId(f, Some(n), v))
  {
    var tail := VariantSuffix(v);
    var rest := "::" + (n + tail);
    var s := f + rest;
    assert NodeIdText(NodeId(f, Some(n), v)) == s;
    MatchFromSkipsFilepath(f, rest, 1);
    assert s[|f| + 2..] == n + tail;
    MatchNameSkipsName(n, tail, 1);
    MatchNameAtEnd(n, v);
    assert s[..|f|] == f;
    NoNewlinePrefix(f, rest, |f|);
    MatchFromHit(s, |f|);
  }

  // ---------------------------------------------------------------------------
  // Log records
  // ---------------------------------------------------------------------------

  /** A failure's long representation: plain text, or a crash report whose one-line message is
      `reprcrash.message` and whose `str()` is `rendered`. */
  datatype LongRepr = TextRepr(text: string) | CrashRepr(crashMessage: string, rendered: string)

  /** `str(longrepr)`. */
  function ReprString(l: LongRepr): string {
    match l case TextRepr(t) => t case CrashRepr(_, rendered) => rendered
  }

  /** One JSON line of the report log, with the fields the model reads. */
  datatype RawRecord = RawRecord(
    reportType: string, nodeid: string, outcome: Option<string>, longrepr: LongRepr,
    pytestVersion: string, exitStatus: string)

  /** The four record kinds the log may hold. */
  datatype LogRecord =
    | TestReport(nodeid: string, outcome: string, longrepr: LongRepr)
    | CollectReport(nodeid: string, outcome: string, longrepr: LongRepr)
    | SessionStart(pytestVersion: string, outcome: string)
    | SessionFinish(exitStatus: string, outcome: string)

  const ReportTypes: seq<string> := ["TestReport", "CollectReport", "SessionStart", "SessionFinish"]

  function ReportTypeName(r: LogRecord): string {
    match r
    case TestReport(_, _, _) => "TestReport"
    case CollectReport(_, _, _) => "CollectReport"
    case SessionStart(_, _) => "SessionStart"
    case SessionFinish(_, _) => "SessionFinish"
  }

  /** parse_record: dispatch on the `$report_type` tag. The session records default their
      outcome to "status"; pytest's own report classes require one. */
  function ParseRecord(raw: RawRecord): (r: Result<LogRecord>)
    ensures raw.reportType !in ReportTypes ==> r == Err("unknown report type: " + raw.reportType)
    ensures r.Ok? <==> (raw.reportType in ReportTypes
                        && (raw.reportType in ["TestReport", "CollectReport"] ==> raw.outcome.Some?))
    ensures r.Ok? ==> (ReportTypeName(r.value) == raw.reportType
                       && r.value.outcome == raw.outcome.GetOr("status"))
  {
    match raw.reportType
    case "TestReport" =>
      if raw.outcome.None? then Err("missing outcome")
      else Ok(TestReport(raw.nodeid, raw.outcome.value, raw.longrepr))
    case "CollectReport" =>
      if raw.outcome.None? then Err("missing outcome")
      else Ok(CollectReport(raw.nodeid, raw.outcome.value, raw.longrepr))
    case "SessionStart" => Ok(SessionStart(raw.pytestVersion, raw.outcome.GetOr("status")))
    case "SessionFinish" => Ok(SessionFinish(raw.exitStatus, raw.outcome.GetOr("status")))
    case _ => Err("unknown report type: " + raw.reportType)
  }

  // ---------------------------------------------------------------------------
  // Preformatted reports
  // ---------------------------------------------------------------------------

  datatype Report = Report(filepath: string, name: Option<string>, variant: Option<string>, message: string)

  /** What a failed record becomes: a report, or the error of a whole collection session. */
  datatype Preformatted = Failed(report: Report) | CollectionError(name: string, repr: string)

  /** PreformattedReport's constructor, which strips escape sequences from the message. */
  function NewReport(filepath: string, name: Option<string>, variant: Option<string>, message: string): (r: Report)
    ensures r.filepath == filepath && r.name == name && r.variant == variant
    ensures r.message == StripAnsi(message) && |r.message| <= |message|
    ensures NoEsc(message) ==> r.message == message
  {
    assert NoEsc(message) ==> StripAnsi(message) == message by {
      if NoEsc(message) { StripAnsiNoEscape(message); }
    }
    Report(filepath, name, variant, StripAnsi(message))
  }

  /** A collection failure's message: the last line of a text long representation, with one
      leading 'E' removed and then left-stripped; a crash report's own message otherwise. */
  function CollectMessage(l: LongRepr): (m: string)
    ensures l.TextRepr? ==> NoNewline(m) && !(m != [] && IsPythonSpace(m[0]))
    ensures l.TextRepr? ==> IsSuffix(m, l.text) && m == LineMessage(LastLine(l.text))
    ensures l.CrashRepr? ==> m == l.crashMessage
  {
    match l
    case TextRepr(t) =>
      var last := LastLine(t);
      var m := LineMessage(last);
      SuffixTransitive(m, last, t);
      SuffixNoNewline(m, last);
      m
    case CrashRepr(message, _) => message
  }

  /** One line with a single leading 'E' removed and then left-stripped: a suffix of the line
      after that 'E', with only whitespace cut between the two. */
  function LineMessage(last: string): (m: string)
    ensures !(m != [] && IsPythonSpace(m[0]))
    ensures var e := if "E" <= last then 1 else 0;
      && e + |m| <= |last|
      && IsSuffix(m, last)
      && forall k :: e <= k < |last| - |m| ==> IsPythonSpace(last[k])
  {
    var dropped := RemovePrefix(last, "E");
    var m := LStrip(dropped);
    var e := if "E" <= last then 1 else 0;
    assert dropped == last[e..] by {
      if "E" <= last { assert last == "E" + dropped; }
    }
    StrippedTail(last, e, dropped, m);
    m
  }

  /** A suffix of a line without newline has none either. */
  lemma SuffixNoNewline(a: string, b: string)
    requires IsSuffix(a, b) && NoNewline(b)
    ensures NoNewline(a)
  {
  }

  /** Left-stripping what follows the first e characters of a line leaves a suffix of the
      line, with only whitespace between the two. */
  lemma StrippedTail(last: string, e: nat, dropped: string, m: string)
    requires e <= |last| && dropped == last[e..]
    requires IsSuffix(m, dropped) && forall k :: 0 <= k < |dropped| - |m| ==> IsPythonSpace(dropped[k])
    ensures e + |m| <= |last| && IsSuffix(m, last)
    ensures forall k :: e <= k < |last| - |m| ==> IsPythonSpace(last[k])
  {
    forall k | e <= k < |last| - |m| ensures IsPythonSpace(last[k]) {
      assert last[k] == dropped[k - e];
    }
  }

  /** The message of a test failure: the text itself, or the crash report's message. */
  function TestMessage(l: LongRepr): string {
    match l case TextRepr(t) => t case CrashRepr(message, _) => message
  }

  /** preformat_report, dispatched on the record kind. Session records have no node id, so
      the generic fallback fails on them. */
  function Preformat(rec: LogRecord): (r: Result<Preformatted>)
    ensures rec.CollectReport? && rec.nodeid == "" ==>
      r == Ok(CollectionError(TestCollectionStage, ReprString(rec.longrepr)))
    ensures rec.CollectReport? && rec.nodeid != "" && !HasDoubleColon(rec.nodeid) ==>
      r == Ok(Failed(NewReport(rec.nodeid, None, None, CollectMessage(rec.longrepr))))
    ensures rec.TestReport? ==> (r.Ok? <==> ParseNodeId(rec.nodeid).Ok?)
    ensures rec.CollectReport? && HasDoubleColon(rec.nodeid) ==> (r.Ok? <==> ParseNodeId(rec.nodeid).Ok?)
    ensures r.Ok? && r.value.Failed? && (rec.TestReport? || rec.CollectReport?) ==>
      r.value.report.message
        == StripAnsi(if rec.TestReport? then TestMessage(rec.longrepr) else CollectMessage(rec.longrepr))
    ensures r.Ok? && r.value.Failed? ==>
      && (rec.TestReport? || rec.CollectReport?)
      && NodeIdText(NodeId(r.value.report.filepath, r.value.report.name, r.value.report.variant)) == rec.nodeid
    ensures rec.SessionStart? || rec.SessionFinish? ==> r.Err?
  {
    match rec
    case TestReport(id, _, l) =>
      var p :- ParseNodeId(id);
      Ok(Failed(NewReport(p.filepath, p.name, p.variant, TestMessage(l))))
    case CollectReport(id, _, l) =>
      if id == "" then Ok(CollectionError(TestCollectionStage, ReprString(l)))
      else
        var p :- if !HasDoubleColon(id) then Ok(NodeId(id, None, None)) else ParseNodeId(id);
        Ok(Failed(NewReport(p.filepath, p.name, p.variant, CollectMessage(l))))
    case _ => Err("'" + ReportTypeName(rec) + "' object has no attribute 'nodeid'")
  }

  // ---------------------------------------------------------------------------
  // Rendering
  // ---------------------------------------------------------------------------

  /** An f-string renders an absent name as "None". */
  function OptText(o: Option<string>): string {
    match o case Some(x) => x case None => "None"
  }

  /** format_summary: the node id, then ": " and the message. */
  function FormatSummary(r: Report): (line: string)
    ensures r.name.Some? || r.variant.None? ==>
      line == NodeIdText(NodeId(r.filepath, r.name, r.variant)) + ": " + r.message
  {
    if r.variant.Some? then r.filepath + "::" + OptText(r.name) + "[" + r.variant.value + "]: " + r.message
    else if r.name.Some? then r.filepath + "::" + r.name.value + ": " + r.message
    else r.filepath + ": " + r.message
  }

  /** A failure's summary line starts with the node id of the record it came from. */
  lemma SummaryStartsWithNodeId(rec: LogRecord)
    requires Preformat(rec).Ok? && Preformat(rec).value.Failed?
    ensures FormatSummary(Preformat(rec).value.report)
      == rec.nodeid + ": " + Preformat(rec).value.report.message
  {
  }

  function Header(pyVersion: string): string {
    "<details><summary>Python " + pyVersion + " Test Summary</summary>\n\n"
  }

  const Footer: string := "\n```\n\n</details>\n"

  /** format_report: the newline-joined lines in a code fence inside a collapsed section. */
  function FormatReport(summaries: seq<string>, pyVersion: string): string {
    Header(pyVersion) + "```\n" + Join(summaries, "\n") + Footer
  }

  /** The listing is the header and an opening fence, the lines joined by newlines, and the
      footer. */
  lemma FormatReportLayout(summaries: seq<string>, pyVersion: string)
    ensures var r := FormatReport(summaries, pyVersion);
      && |r| == |Header(pyVersion)| + 4 + |Join(summaries, "\n")| + |Footer|
      && r[..|Header(pyVersion)| + 4] == Header(pyVersion) + "```\n"
      && r[|Header(pyVersion)| + 4..|r| - |Footer|] == Join(summaries, "\n")
      && r[|r| - |Footer|..] == Footer
  {
    var h := Header(pyVersion) + "```\n";
    var j := Join(summaries, "\n");
    assert FormatReport(summaries, pyVersion) == h + j + Footer;
  }

  /** format_collection_error: the session's name and full traceback, with no length limit. */
  function FormatCollectionError(name: string, traceback: string, pyVersion: string): string {
    Header(pyVersion) + name + " failed:\n```\n" + traceback + Footer
  }

  /** The page is the header, the name, a fixed 13-character line and fence, the traceback
      and the footer. */
  lemma FormatCollectionErrorLayout(name: string, traceback: string, pyVersion: string)
    ensures var r := FormatCollectionError(name, traceback, pyVersion);
      && |r| == |Header(pyVersion)| + |name| + 13 + |traceback| + |Footer|
      && r[..|Header(pyVersion)|] == Header(pyVersion)
      && r[|Header(pyVersion)|..|Header(pyVersion)| + |name|] == name
      && r[|r| - |Footer| - |traceback|..|r| - |Footer|] == traceback
      && r[|r| - |Footer|..] == Footer
  {
  }
}
