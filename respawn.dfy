/** The scalar upsert of `respawnTimeAdjust.py`: in the line list of a file,
    the first `respawnCustomTime` line is set to `respawnCustomTime<TAB>10000`;
    without one, that line is inserted before the line that closes the first
    `ClassInfo` block, or appended when there is no such block. */
module Respawn {
  import opened Text

  const Key: string := "respawnCustomTime"

  /** `new_respawn_line_content`. */
  const Setting: string := "respawnCustomTime\t10000"

  /** The line written: the setting and a line feed. */
  const SettingLine: string := Setting + "\n"

  const ClassInfo: string := "ClassInfo"

  /** The outcome for one file: its new lines and whether it is written. */
  datatype Outcome = Outcome(lines: seq<string>, modified: bool)

  // ---------------------------------------------------------------------------
  // The line pattern

  /** ASCII lower case, as `re.IGNORECASE` folds letters. */
  function Lower(c: char): (r: char)
    ensures IsSpace(c) <==> IsSpace(r)
  {
    if 'A' <= c <= 'Z' then (c as int + 32) as char else c
  }

  /** `lit` occurs at index `i`, ignoring the case of letters. */
  predicate NoCaseAt(s: string, lit: string, i: nat) {
    i + |lit| <= |s| && forall k :: 0 <= k < |lit| ==> Lower(s[i + k]) == Lower(lit[k])
  }

  /** No line feed in `s[k..]` except, possibly, as its last character: what
      `.*$` needs, `$` matching at the end or before a final line feed. */
  predicate NoBreakFrom(s: string, k: nat) {
    forall j :: k <= j < |s| - 1 ==> s[j] != '\n'
  }

  /** `re.match(r"^\s*<key>[\s\t]+.*$", line, re.IGNORECASE)` for a key that
      starts with a non-space character. Both whitespace runs are taken whole:
      the leading one cannot give back a character to the key, and a shorter
      second run only leaves more text for `.*$` to cover. */
  predicate KeyLine(line: string, key: string) {
    var n := SpaceRun(line, 0);
    NoCaseAt(line, key, n) &&
    var e := n + |key|;
    var w := SpaceRun(line, e);
    w > 0 && NoBreakFrom(line, e + w)
  }

  /** `respawn_pattern.match(line)`. */
  predicate IsRespawnLine(line: string) {
    KeyLine(line, Key)
  }

  // ---------------------------------------------------------------------------
  // The searches the script makes

  /** Index of the first line at or after `i` that the pattern matches. */
  function FirstRespawn(lines: seq<string>, i: nat): (r: Option<nat>)
    requires i <= |lines|
    ensures r.Some? ==> i <= r.value < |lines| && IsRespawnLine(lines[r.value])
    decreases |lines| - i
  {
    if i == |lines| then None
    else if IsRespawnLine(lines[i]) then Some(i)
    else FirstRespawn(lines, i + 1)
  }

  /** Line `i` names `ClassInfo` and it or the line after it holds a `{`. */
  predicate Opens(lines: seq<string>, i: nat)
    requires i < |lines|
  {
    Contains(lines[i], ClassInfo) &&
    (!Lacks(lines[i], '{') || (i + 1 < |lines| && !Lacks(lines[i + 1], '{')))
  }

  /** Index of the first line at or after `i` that opens the block. */
  function FirstOpening(lines: seq<string>, i: nat): (r: Option<nat>)
    requires i <= |lines|
    ensures r.Some? ==> i <= r.value < |lines| && Opens(lines, r.value)
    decreases |lines| - i
  {
    if i == |lines| then None
    else if Opens(lines, i) then Some(i)
    else FirstOpening(lines, i + 1)
  }

  /** The line holding the opening brace of the block named on line `i`. */
  function BraceLine(lines: seq<string>, i: nat): (b: nat)
    requires i < |lines| && Opens(lines, i)
    ensures b < |lines|
  {
    if !Lacks(lines[i], '{') then i else i + 1
  }

  /** Brace depth change of one line: `line.count("{") - line.count("}")`. */
  function Delta(line: string): int {
    Count(line, '{') - Count(line, '}')
  }

  /** Index of the first line at or after `j` where the depth, `level` before
      that line, becomes exactly zero. */
  function ZeroFrom(lines: seq<string>, j: nat, level: int): (r: Option<nat>)
    requires j <= |lines|
    ensures r.Some? ==> j <= r.value < |lines|
    decreases |lines| - j
  {
    if j == |lines| then None
    else if level + Delta(lines[j]) == 0 then Some(j)
    else ZeroFrom(lines, j + 1, level + Delta(lines[j]))
  }

  /** Where the setting line goes when no line matches: before the line that
      brings the depth of the first block back to zero, else at the end. */
  function InsertionIndex(lines: seq<string>): (k: nat)
    ensures k <= |lines|
  {
    match FirstOpening(lines, 0)
    case None => |lines|
    case Some(i) =>
      match ZeroFrom(lines, BraceLine(lines, i) + 1, 1)
      case None => |lines|
      case Some(c) => c
  }

  /** The whole per-file update. */
  function Upsert(lines: seq<string>): Outcome {
    match FirstRespawn(lines, 0)
    case Some(i) =>
      if Strip(lines[i]) != Setting then Outcome(lines[i := SettingLine], true)
      else Outcome(lines, false)
    case None =>
      var k := InsertionIndex(lines);
      Outcome(lines[..k] + [SettingLine] + lines[k..], true)
  }

  // ---------------------------------------------------------------------------
  // The script's loops

  /** The update as the script performs it on its list of lines: a first pass
      that stops at the first match, then the block search, the brace count
      and the insertion or the append. */
  method UpdateRespawnTime(original: seq<string>) returns (lines: seq<string>, modified: bool)
    ensures Outcome(lines, modified) == Upsert(original)
  {
    var found;
    lines, modified, found := FirstPass(original);
    if !found {
      var start := FindBlockStart(lines);
      var k := |lines|;
      if start != -1 {
        var insertAt := FindBlockEnd(lines, start);
        if insertAt != -1 {
          k := insertAt;
        }
      }
      assert k == InsertionIndex(original);
      if k < |lines| {
        lines := lines[..k] + [SettingLine] + lines[k..];
      } else {
        lines := lines + [SettingLine];
        AppendIsInsertAtEnd(original, SettingLine);
      }
      modified := true;
      UpsertWithoutMatch(original);
    }
  }

  lemma AppendIsInsertAtEnd(lines: seq<string>, x: string)
    ensures lines + [x] == lines[..|lines|] + [x] + lines[|lines|..]
  {
    assert lines[..|lines|] == lines && lines[|lines|..] == [];
  }

  lemma UpsertWithoutMatch(lines: seq<string>)
    requires FirstRespawn(lines, 0).None?
    ensures Upsert(lines) == Outcome(lines[..InsertionIndex(lines)] + [SettingLine] + lines[InsertionIndex(lines)..], true)
  {
  }

  /** The first pass: the first matching line is rewritten unless its
      stripped text is already the setting; later matches are not looked
      at. */
  method FirstPass(original: seq<string>) returns (lines: seq<string>, modified: bool, found: bool)
    ensures found == FirstRespawn(original, 0).Some?
    ensures found ==> Outcome(lines, modified) == Upsert(original)
    ensures !found ==> lines == original && !modified
  {
    lines := original;
    modified := false;
    found := false;
    for i := 0 to |lines|
      invariant lines == original && !modified && !found
      invariant FirstRespawn(original, 0) == FirstRespawn(original, i)
    {
      if IsRespawnLine(lines[i]) {
        if Strip(lines[i]) != Setting {
          lines := lines[i := SettingLine];
          modified := true;
        }
        found := true;
        break;
      }
    }
  }

  /** The index of the line with the opening brace of the first block, or
      -1. */
  method FindBlockStart(lines: seq<string>) returns (start: int)
    ensures start == match FirstOpening(lines, 0) case None => -1 case Some(i) => BraceLine(lines, i)
  {
    start := -1;
    for i := 0 to |lines|
      invariant start == -1
      invariant FirstOpening(lines, 0) == FirstOpening(lines, i)
    {
      if Contains(lines[i], ClassInfo) {
        if !Lacks(lines[i], '{') {
          start := i;
          break;
        } else if i + 1 < |lines| && !Lacks(lines[i + 1], '{') {
          start := i + 1;
          break;
        }
      }
    }
  }

  /** The index of the first line after `start` at which the depth, counted
      from 1, is exactly zero, or -1. */
  method FindBlockEnd(lines: seq<string>, start: nat) returns (insertAt: int)
    requires start < |lines|
    ensures insertAt == match ZeroFrom(lines, start + 1, 1) case None => -1 case Some(c) => c
  {
    var level := 1;
    insertAt := -1;
    for i := start + 1 to |lines|
      invariant insertAt == -1
      invariant ZeroFrom(lines, start + 1, 1) == ZeroFrom(lines, i, level)
    {
      level := level + Count(lines[i], '{');
      level := level - Count(lines[i], '}');
      if level == 0 {
        insertAt := i;
        break;
      }
    }
  }

  // ---------------------------------------------------------------------------
  // The pattern

  /** Declarative reading of `^\s*<key>[\s\t]+.*$` with IGNORECASE: some
      whitespace, the key in any letter case, a non-empty whitespace run up
      to `m`, and from there no line feed except as the last character. */
  ghost predicate Pattern(line: string, key: string) {
    exists n: nat, m: nat :: n + |key| < m <= |line| && SpacesIn(line, 0, n) &&
      NoCaseAt(line, key, n) && SpacesIn(line, n + |key|, m) && NoBreakFrom(line, m)
  }

  /** The matcher, which takes both whitespace runs whole, accepts exactly
      the lines the pattern describes. */
  lemma KeyLineIsPattern(line: string, key: string)
    requires key != [] && !IsSpace(key[0])
    ensures KeyLine(line, key) <==> Pattern(line, key)
  {
    if KeyLine(line, key) {
      KeyLineMatches(line, key);
    }
    if Pattern(line, key) {
      PatternMatched(line, key);
    }
  }

  /** What the matcher accepts fits the pattern. */
  lemma KeyLineMatches(line: string, key: string)
    requires KeyLine(line, key)
    ensures Pattern(line, key)
  {
    var n := SpaceRun(line, 0);
    SpaceRunSpec(line, 0);
    var e := n + |key|;
    SpaceRunSpec(line, e);
    assert n + |key| < e + SpaceRun(line, e) <= |line|;
  }

  /** A line that fits the pattern is accepted: the whitespace runs the
      matcher takes whole are where the pattern puts them. */
  lemma PatternMatched(line: string, key: string)
    requires key != [] && !IsSpace(key[0]) && Pattern(line, key)
    ensures KeyLine(line, key)
  {
    var n: nat, m: nat :| n + |key| < m <= |line| && SpacesIn(line, 0, n) &&
      NoCaseAt(line, key, n) && SpacesIn(line, n + |key|, m) && NoBreakFrom(line, m);
    WitnessMatched(line, key, n, m);
  }

  /** The pattern's witnesses: the key sits where the first whitespace run
      ends, and the second run reaches at least to `m`. */
  lemma WitnessMatched(line: string, key: string, n: nat, m: nat)
    requires key != [] && !IsSpace(key[0]) && n + |key| < m <= |line|
    requires SpacesIn(line, 0, n) && NoCaseAt(line, key, n)
    requires SpacesIn(line, n + |key|, m) && NoBreakFrom(line, m)
    ensures KeyLine(line, key)
  {
    NoCaseHead(line, key, n);
    SpaceRunEndsAt(line, 0, n);
    var e := n + |key|;
    SpaceRunReaches(line, e, m);
    SpaceRunSpec(line, e);
  }

  lemma NoCaseHead(s: string, lit: string, i: nat)
    requires lit != [] && NoCaseAt(s, lit, i)
    ensures i < |s| && (IsSpace(s[i]) <==> IsSpace(lit[0]))
  {
    assert Lower(s[i + 0]) == Lower(lit[0]);
  }

  /** A whitespace run that reaches `m` is at least that long. */
  lemma {:induction false} SpaceRunReaches(s: string, i: nat, m: nat)
    requires i <= m <= |s| && SpacesIn(s, i, m)
    ensures i + SpaceRun(s, i) >= m
    decreases m - i
  {
    if i < m {
      SpaceRunReaches(s, i + 1, m);
    }
  }

  /** `<key><TAB><value><LF>` matches, for a value without a line feed. */
  lemma KeyValueLine(key: string, v: string)
    requires key != [] && !IsSpace(key[0]) && Lacks(v, '\n')
    ensures KeyLine(key + "\t" + v + "\n", key)
  {
    var line := key + "\t" + v + "\n";
    assert line[0] == key[0];
    assert SpaceRun(line, 0) == 0;
    assert forall k :: 0 <= k < |key| ==> line[k] == key[k];
    var e := |key|;
    assert line[e] == '\t';
    var w := SpaceRun(line, e);
    assert w > 0;
    forall j | e + w <= j < |line| - 1
      ensures line[j] != '\n'
    {
      assert line[j] == v[j - e - 1];
    }
  }

  /** `strip()` of `<key><TAB><value><LF>` is `<key><TAB><value>` when both
      ends are not whitespace. */
  lemma KeyValueStrip(key: string, v: string)
    requires key != [] && !IsSpace(key[0]) && v != [] && !IsSpace(v[|v| - 1])
    ensures Strip(key + "\t" + v + "\n") == key + "\t" + v
  {
    var core := key + "\t" + v;
    assert core[0] == key[0] && core[|core| - 1] == v[|v| - 1];
    StripOf([], core, "\n");
    assert [] + core + "\n" == key + "\t" + v + "\n";
  }

  /** The line the script writes is one the pattern matches, and its
      stripped text is the setting. */
  lemma SettingLineMatches()
    ensures IsRespawnLine(SettingLine)
    ensures Strip(SettingLine) == Setting
  {
    assert Setting == Key + "\t" + "10000";
    assert !IsSpace(Key[0]) && Lacks("10000", '\n');
    KeyValueLine(Key, "10000");
    KeyValueStrip(Key, "10000");
  }

  /** Indentation and letter case do not matter: `<pre><word><SP><value>`
      matches when `<pre>` is whitespace, `<word>` is the key up to case and
      the value holds no line feed. */
  lemma IndentedAnyCase(pre: string, word: string, key: string, v: string)
    requires key != [] && !IsSpace(key[0]) && AllSpace(pre) && Lacks(v, '\n')
    requires |word| == |key| && forall k :: 0 <= k < |key| ==> Lower(word[k]) == Lower(key[k])
    ensures KeyLine(pre + word + " " + v, key)
  {
    var line := pre + word + " " + v;
    var n := |pre|;
    assert SpacesIn(line, 0, n) && line[n] == word[0];
    assert !IsSpace(word[0]) by {
      assert Lower(word[0]) == Lower(key[0]);
    }
    SpaceRunEndsAt(line, 0, n);
    assert forall k :: 0 <= k < |key| ==> line[n + k] == word[k];
    var e := n + |key|;
    assert line[e] == ' ';
    var w := SpaceRun(line, e);
    forall j | e + w <= j < |line| - 1
      ensures line[j] != '\n'
    {
      assert line[j] == v[j - e - 1];
    }
  }

  /** The key must be followed by whitespace: the key glued to a
      non-space character, or with nothing at all after it (not even a
      line feed), is no match. */
  lemma GluedKeyRejected(key: string, v: string)
    requires key != [] && !IsSpace(key[0]) && (v == [] || !IsSpace(v[0]))
    ensures !KeyLine(key + v, key)
  {
    var line := key + v;
    assert line[0] == key[0];
    assert SpaceRun(line, 0) == 0;
    if v != [] {
      assert line[|key|] == v[0];
    }
  }

  /** The two lemmas above for the script's own key. */
  lemma RespawnLineExamples(pre: string, word: string, v: string)
    requires AllSpace(pre) && Lacks(v, '\n')
    requires |word| == |Key| && forall k :: 0 <= k < |Key| ==> Lower(word[k]) == Lower(Key[k])
    ensures IsRespawnLine(pre + word + " " + v)
    ensures v == [] || !IsSpace(v[0]) ==> !IsRespawnLine(Key + v)
  {
    assert !IsSpace(Key[0]);
    IndentedAnyCase(pre, word, Key, v);
    if v == [] || !IsSpace(v[0]) {
      GluedKeyRejected(Key, v);
    }
  }

  // ---------------------------------------------------------------------------
  // The searches

  /** `FirstRespawn` finds the first matching line: no line before it
      matches, and when it finds none, no line matches. */
  lemma {:induction false} FirstRespawnSpec(lines: seq<string>, i: nat)
    requires i <= |lines|
    ensures match FirstRespawn(lines, i)
      case Some(r) => forall j :: i <= j < r ==> !IsRespawnLine(lines[j])
      case None => forall j :: i <= j < |lines| ==> !IsRespawnLine(lines[j])
    decreases |lines| - i
  {
    if i < |lines| && !IsRespawnLine(lines[i]) {
      FirstRespawnSpec(lines, i + 1);
    }
  }

  /** And a matching line with no match before it is the one found. */
  lemma {:induction false} FirstRespawnFinds(lines: seq<string>, i: nat, r: nat)
    requires i <= r < |lines| && IsRespawnLine(lines[r])
    requires forall j :: i <= j < r ==> !IsRespawnLine(lines[j])
    ensures FirstRespawn(lines, i) == Some(r)
    decreases r - i
  {
    if i < r {
      FirstRespawnFinds(lines, i + 1, r);
    }
  }

  /** `FirstOpening` finds the first line naming `ClassInfo` with a brace on
      it or on the next line. */
  lemma {:induction false} FirstOpeningSpec(lines: seq<string>, i: nat)
    requires i <= |lines|
    ensures match FirstOpening(lines, i)
      case Some(r) => forall j :: i <= j < r ==> !Opens(lines, j)
      case None => forall j :: i <= j < |lines| ==> !Opens(lines, j)
    decreases |lines| - i
  {
    if i < |lines| && !Opens(lines, i) {
      FirstOpeningSpec(lines, i + 1);
    }
  }

  /** Net brace count of `lines[a..b]`. */
  function DeltaSum(lines: seq<string>, a: nat, b: nat): int
    requires a <= b <= |lines|
    decreases b - a
  {
    if a == b then 0 else Delta(lines[a]) + DeltaSum(lines, a + 1, b)
  }

  /** `ZeroFrom` finds the first line `c` at which the depth after it,
      `level` plus the net count of `lines[j..c + 1]`, is zero; when it
      finds none, the depth after no line is zero. */
  lemma {:induction false} ZeroFromSpec(lines: seq<string>, j: nat, level: int)
    requires j <= |lines|
    ensures match ZeroFrom(lines, j, level)
      case Some(c) => level + DeltaSum(lines, j, c + 1) == 0 &&
        forall d :: j < d <= c ==> level + DeltaSum(lines, j, d) != 0
      case None => forall d :: j < d <= |lines| ==> level + DeltaSum(lines, j, d) != 0
    decreases |lines| - j
  {
    if j < |lines| && level + Delta(lines[j]) != 0 {
      ZeroFromSpec(lines, j + 1, level + Delta(lines[j]));
      var r := ZeroFrom(lines, j + 1, level + Delta(lines[j]));
      var top := if r.Some? then r.value else |lines|;
      forall d | j < d <= top
        ensures level + DeltaSum(lines, j, d) != 0
      {
        assert DeltaSum(lines, j, d) == Delta(lines[j]) + DeltaSum(lines, j + 1, d);
      }
      if r.Some? {
        assert DeltaSum(lines, j, r.value + 1) == Delta(lines[j]) + DeltaSum(lines, j + 1, r.value + 1);
      }
    }
  }

  // ---------------------------------------------------------------------------
  // The update

  /** With a matching line, only the first one can change, the line count
      stays, and the file is written exactly when that line changes. */
  lemma UpdateOnMatch(lines: seq<string>, i: nat)
    requires FirstRespawn(lines, 0) == Some(i)
    ensures |Upsert(lines).lines| == |lines|
    ensures forall j :: 0 <= j < |lines| && j != i ==> Upsert(lines).lines[j] == lines[j]
    ensures Upsert(lines).lines[i] == if Strip(lines[i]) == Setting then lines[i] else SettingLine
    ensures Upsert(lines).modified <==> Upsert(lines).lines != lines
  {
    SettingLineMatches();
    if Strip(lines[i]) != Setting {
      assert Upsert(lines).lines[i] != lines[i];
    }
  }

  /** Without a matching line, exactly one line is added, at the insertion
      index, and the original lines keep their order and content. */
  lemma UpdateWithoutMatch(lines: seq<string>)
    requires FirstRespawn(lines, 0).None?
    ensures var out := Upsert(lines).lines; var k := InsertionIndex(lines);
      |out| == |lines| + 1 && out[k] == SettingLine && out[..k] + out[k + 1..] == lines
    ensures Upsert(lines).modified && Upsert(lines).lines != lines
  {
    var out := Upsert(lines).lines;
    var k := InsertionIndex(lines);
    assert out[..k] == lines[..k];
    assert out[k + 1..] == lines[k..];
  }

  /** The setting goes before the line that closes the first block: every
      line strictly between the brace line and the insertion index leaves
      the depth, counted from 1, above or below zero, and the line at the
      insertion index brings it to zero. */
  lemma InsertedBeforeClose(lines: seq<string>, i: nat, o: nat, c: nat)
    requires FirstOpening(lines, 0) == Some(i) && o == BraceLine(lines, i) + 1
    requires ZeroFrom(lines, o, 1) == Some(c)
    ensures InsertionIndex(lines) == c && o <= c
    ensures 1 + DeltaSum(lines, o, c + 1) == 0
    ensures forall d :: o < d <= c ==> 1 + DeltaSum(lines, o, d) != 0
  {
    ZeroFromSpec(lines, o, 1);
  }

  /** Without an opening `ClassInfo` line, or without the line that closes
      its block, the setting is appended. */
  lemma AppendedOtherwise(lines: seq<string>)
    requires FirstRespawn(lines, 0).None?
    requires FirstOpening(lines, 0).None? ||
      ZeroFrom(lines, BraceLine(lines, FirstOpening(lines, 0).value) + 1, 1).None?
    ensures Upsert(lines).lines == lines + [SettingLine]
  {
    assert lines[..|lines|] == lines && lines[|lines|..] == [];
  }

  /** Running the update on its own output changes nothing. This is a
      statement about line lists: re-reading a written file gives back the
      same list only when its last line ends in a line feed (see
      `GluedSettingAppended`). */
  lemma SecondRunNoChange(lines: seq<string>)
    ensures Upsert(Upsert(lines).lines) == Outcome(Upsert(lines).lines, false)
  {
    match FirstRespawn(lines, 0)
    case Some(i) => SecondRunAfterMatch(lines, i);
    case None => SecondRunAfterInsert(lines);
  }

  lemma SecondRunAfterMatch(lines: seq<string>, i: nat)
    requires FirstRespawn(lines, 0) == Some(i)
    ensures Upsert(Upsert(lines).lines) == Outcome(Upsert(lines).lines, false)
  {
    var out := Upsert(lines).lines;
    SettingLineMatches();
    FirstRespawnSpec(lines, 0);
    UpdateOnMatch(lines, i);
    assert IsRespawnLine(out[i]) && Strip(out[i]) == Setting;
    FirstRespawnFinds(out, 0, i);
  }

  lemma SecondRunAfterInsert(lines: seq<string>)
    requires FirstRespawn(lines, 0).None?
    ensures Upsert(Upsert(lines).lines) == Outcome(Upsert(lines).lines, false)
  {
    var out := Upsert(lines).lines;
    var k := InsertionIndex(lines);
    SettingLineMatches();
    FirstRespawnSpec(lines, 0);
    UpdateWithoutMatch(lines);
    forall j | 0 <= j < k
      ensures !IsRespawnLine(out[j])
    {
      assert out[j] == out[..k][j] == lines[j];
    }
    FirstRespawnFinds(out, 0, k);
  }

  /** A file whose last line has no line feed: `["x"]` gets the setting
      appended, and `writelines` glues it onto that line. Read back, the file
      is the single line `"x" + SettingLine`, which the anchored pattern does
      not match, so the next run appends the setting once more. */
  lemma GluedSettingAppended()
    ensures Upsert(["x"]) == Outcome(["x", SettingLine], true)
    ensures "x" + SettingLine == ["x", SettingLine][0] + ["x", SettingLine][1]
    ensures Upsert(["x" + SettingLine]) == Outcome(["x" + SettingLine, SettingLine], true)
  {
    var glued := "x" + SettingLine;
    assert !IsRespawnLine("x") by {
      assert SpaceRun("x", 0) == 0;
      assert Lower("x"[0 + 0]) != Lower(Key[0]);
    }
    assert !IsRespawnLine(glued) by {
      assert glued[0] == 'x';
      assert SpaceRun(glued, 0) == 0;
      assert Lower(glued[0 + 0]) != Lower(Key[0]);
    }
    assert !Contains("x", ClassInfo);
    assert Lacks(glued, '{');
  }
}
