/** The whitespace normaliser of `beautize.py` (`beautify_file`): every line
    loses its trailing whitespace and has its leading spaces turned into tabs;
    then either every blank line is dropped, or runs of blank lines become a
    single empty line and blank lines at both ends go; every line is written
    back with one line feed. */
module Beautize {
  import opened Text

  // ---------------------------------------------------------------------------
  // One line

  /** Python's `n // w`, which rounds toward minus infinity. */
  function FloorDiv(n: int, w: int): int
    requires w != 0
  {
    if w > 0 then n / w else (-n) / (-w)
  }

  /** Python's `n % w`, which takes the sign of `w`. */
  function FloorMod(n: int, w: int): int
    requires w != 0
  {
    n - w * FloorDiv(n, w)
  }

  /** `len(s) - len(s.lstrip(' '))`: only space characters count. */
  function LeadingSpaces(s: string): (n: nat)
    ensures n <= |s|
    ensures forall k :: 0 <= k < n ==> s[k] == ' '
    ensures n == |s| || s[n] != ' '
  {
    if s != [] && s[0] == ' ' then 1 + LeadingSpaces(s[1..]) else 0
  }

  /** The line as the first loop leaves it, for a non-zero tab width. */
  function Convert(line: string, w: int): string
    requires w != 0
  {
    var r := RStrip(line);
    var n := LeadingSpaces(r);
    Repeat('\t', FloorDiv(n, w)) + Repeat(' ', FloorMod(n, w)) + r[n..]
  }

  /** Every line converted. */
  function Converted(lines: seq<string>, w: int): (out: seq<string>)
    requires w != 0 || lines == []
    ensures |out| == |lines|
  {
    seq(|lines|, i requires 0 <= i < |lines| => Convert(lines[i], w))
  }

  // ---------------------------------------------------------------------------
  // Blank-line compaction

  /** Remove-all mode: the lines with something besides whitespace, that is
      those for which `line.strip()` is not empty (see `BlankIsStripEmpty`). */
  function NonBlank(ls: seq<string>): seq<string> {
    if ls == [] then [] else (if IsBlank(ls[0]) then [] else [ls[0]]) + NonBlank(ls[1..])
  }

  /** The list the flag loop builds from `ls`: a blank line adds one empty
      line unless the line before it was blank too. */
  function Collapsed(ls: seq<string>): seq<string>
  {
    if ls == [] then []
    else
      var init := ls[..|ls| - 1];
      var l := ls[|ls| - 1];
      if !IsBlank(l) then Collapsed(init) + [l]
      else if init != [] && IsBlank(init[|init| - 1]) then Collapsed(init)
      else Collapsed(init) + [""]
  }

  /** What `while ls and not ls[0].strip(): ls.pop(0)` leaves. */
  function DropLeadingBlanks(ls: seq<string>): seq<string> {
    if ls != [] && IsBlank(ls[0]) then DropLeadingBlanks(ls[1..]) else ls
  }

  /** What `while ls and not ls[-1].strip(): ls.pop()` leaves. */
  function DropTrailingBlanks(ls: seq<string>): seq<string> {
    if ls != [] && IsBlank(ls[|ls| - 1]) then DropTrailingBlanks(ls[..|ls| - 1]) else ls
  }

  /** Default mode. */
  function Compacted(ls: seq<string>): seq<string> {
    DropTrailingBlanks(DropLeadingBlanks(Collapsed(ls)))
  }

  function Compact(ls: seq<string>, removeAll: bool): seq<string> {
    if removeAll then NonBlank(ls) else Compacted(ls)
  }

  /** `[line + '\n' for line in ls]`. */
  function Terminated(ls: seq<string>): (out: seq<string>)
    ensures |out| == |ls|
  {
    seq(|ls|, i requires 0 <= i < |ls| => ls[i] + "\n")
  }

  /** The lines written back, or `None` when the first line's `n // 0`
      raises and the file is left alone. */
  function Beautify(lines: seq<string>, w: int, removeAll: bool): Option<seq<string>> {
    if w == 0 && lines != [] then None
    else Some(Terminated(Compact(Converted(lines, w), removeAll)))
  }

  // ---------------------------------------------------------------------------
  // The script's loops

  /** `beautify_file` on the lines of one file. */
  method BeautifyLines(lines: seq<string>, w: int, removeAll: bool) returns (ok: bool, out: seq<string>)
    ensures Beautify(lines, w, removeAll) == if ok then Some(out) else None
  {
    if w == 0 && lines != [] {
      return false, [];
    }
    var converted := ConvertLines(lines, w);
    var compacted;
    if removeAll {
      compacted := NonBlank(converted);
    } else {
      compacted := CollapseBlankRuns(converted);
      compacted := PopLeadingBlanks(compacted);
      compacted := PopTrailingBlanks(compacted);
    }
    ok, out := true, Terminated(compacted);
  }

  /** The first loop: `modified_lines_with_indentation`. */
  method ConvertLines(lines: seq<string>, w: int) returns (out: seq<string>)
    requires w != 0 || lines == []
    ensures out == Converted(lines, w)
  {
    out := [];
    for i := 0 to |lines|
      invariant |out| == i
      invariant forall k {:trigger out[k]} :: 0 <= k < i ==> out[k] == Convert(lines[k], w)
    {
      var line := RStrip(lines[i]);
      var leading := LeadingSpaces(line);
      var numTabs := FloorDiv(leading, w);
      var remaining := FloorMod(leading, w);
      var code := line[leading..];
      out := out + [Repeat('\t', numTabs) + Repeat(' ', remaining) + code];
    }
  }

  /** The loop with `previous_line_was_blank`. */
  method CollapseBlankRuns(ls: seq<string>) returns (out: seq<string>)
    ensures out == Collapsed(ls)
  {
    out := [];
    var previousBlank := false;
    for i := 0 to |ls|
      invariant out == Collapsed(ls[..i])
      invariant previousBlank == (i > 0 && IsBlank(ls[i - 1]))
    {
      assert ls[..i + 1][..i] == ls[..i];
      if IsBlank(ls[i]) {
        if !previousBlank {
          out := out + [""];
        }
        previousBlank := true;
      } else {
        out := out + [ls[i]];
        previousBlank := false;
      }
    }
    assert ls[..|ls|] == ls;
  }

  method PopLeadingBlanks(ls: seq<string>) returns (out: seq<string>)
    ensures out == DropLeadingBlanks(ls)
  {
    out := ls;
    while out != [] && IsBlank(out[0])
      invariant DropLeadingBlanks(out) == DropLeadingBlanks(ls)
      decreases |out|
    {
      out := out[1..];
    }
  }

  method PopTrailingBlanks(ls: seq<string>) returns (out: seq<string>)
    ensures out == DropTrailingBlanks(ls)
  {
    out := ls;
    while out != [] && IsBlank(out[|out| - 1])
      invariant DropTrailingBlanks(out) == DropTrailingBlanks(ls)
      decreases |out|
    {
      out := out[..|out| - 1];
    }
  }

  // ---------------------------------------------------------------------------
  // Shapes of line lists

  /** No trailing whitespace. */
  predicate Trimmed(s: string) {
    s == [] || !IsSpace(s[|s| - 1])
  }

  /** No two blank lines in a row. */
  predicate NoBlankPair(ls: seq<string>) {
    forall i :: 0 <= i < |ls| - 1 ==> !IsBlank(ls[i]) || !IsBlank(ls[i + 1])
  }

  /** Every blank line is the empty line. */
  predicate BlanksEmpty(ls: seq<string>) {
    forall i :: 0 <= i < |ls| ==> IsBlank(ls[i]) ==> ls[i] == []
  }

  /** The first and the last line are not blank. */
  predicate EndsNonBlank(ls: seq<string>) {
    ls == [] || (!IsBlank(ls[0]) && !IsBlank(ls[|ls| - 1]))
  }

  predicate AllNonBlank(ls: seq<string>) {
    forall i :: 0 <= i < |ls| ==> !IsBlank(ls[i])
  }

  /** Every line of `out` is a line of `ls` or the empty line. */
  predicate Within(out: seq<string>, ls: seq<string>) {
    forall i :: 0 <= i < |out| ==> out[i] == [] || out[i] in ls
  }

  lemma WithinTrans(a: seq<string>, b: seq<string>, c: seq<string>)
    requires Within(a, b) && Within(b, c)
    ensures Within(a, c)
  {
    forall i | 0 <= i < |a| && a[i] != []
      ensures a[i] in c
    {
      var j :| 0 <= j < |b| && b[j] == a[i];
    }
  }

  lemma SliceShape(ls: seq<string>, a: nat, b: nat)
    requires a <= b <= |ls|
    ensures NoBlankPair(ls) ==> NoBlankPair(ls[a..b])
    ensures BlanksEmpty(ls) ==> BlanksEmpty(ls[a..b])
    ensures Within(ls[a..b], ls)
  {
    var t := ls[a..b];
    assert forall i :: 0 <= i < |t| ==> t[i] == ls[a + i];
    if NoBlankPair(ls) {
      forall i | 0 <= i < |t| - 1
        ensures !IsBlank(t[i]) || !IsBlank(t[i + 1])
      {
        assert t[i + 1] == ls[a + i + 1];
      }
    }
  }

  // ---------------------------------------------------------------------------
  // Remove-all mode

  lemma {:induction false} NonBlankAppend(a: seq<string>, b: seq<string>)
    ensures NonBlank(a + b) == NonBlank(a) + NonBlank(b)
  {
    if a == [] {
      assert a + b == b;
    } else {
      assert (a + b)[1..] == a[1..] + b;
      NonBlankAppend(a[1..], b);
    }
  }

  /** Remove-all mode keeps exactly the non-blank lines, in their order: no
      blank line is left, every non-blank line is kept, nothing else is
      added, and a list without blank lines is kept whole. */
  lemma {:induction false} NonBlankSpec(ls: seq<string>)
    ensures AllNonBlank(NonBlank(ls)) && Within(NonBlank(ls), ls)
    ensures forall i :: 0 <= i < |ls| && !IsBlank(ls[i]) ==> ls[i] in NonBlank(ls)
    ensures AllNonBlank(ls) ==> NonBlank(ls) == ls
  {
    if ls != [] {
      NonBlankSpec(ls[1..]);
      forall i | 0 <= i < |ls| && !IsBlank(ls[i])
        ensures ls[i] in NonBlank(ls)
      {
        if i > 0 {
          assert ls[i] == ls[1..][i - 1];
        }
      }
    }
  }

  // ---------------------------------------------------------------------------
  // Default mode

  lemma {:induction false} CollapsedLast(ls: seq<string>)
    requires ls != []
    ensures Collapsed(ls) != []
    ensures IsBlank(Collapsed(ls)[|Collapsed(ls)| - 1]) <==> IsBlank(ls[|ls| - 1])
    decreases |ls|
  {
    var init := ls[..|ls| - 1];
    if IsBlank(ls[|ls| - 1]) && init != [] && IsBlank(init[|init| - 1]) {
      CollapsedLast(init);
    }
  }

  /** The flag loop never leaves two blank lines in a row and writes every
      blank line it keeps as the empty line. */
  lemma {:induction false} CollapsedNoBlankPair(ls: seq<string>)
    ensures NoBlankPair(Collapsed(ls)) && BlanksEmpty(Collapsed(ls))
    decreases |ls|
  {
    if ls != [] {
      var init := ls[..|ls| - 1];
      CollapsedNoBlankPair(init);
      if init != [] {
        CollapsedLast(init);
      }
    }
  }

  /** The flag loop keeps the non-blank lines in their order and adds
      nothing but empty lines. */
  lemma CollapsedKeepsText(ls: seq<string>)
    ensures NonBlank(Collapsed(ls)) == NonBlank(ls)
    ensures Within(Collapsed(ls), ls)
  {
    CollapsedNonBlank(ls);
    CollapsedWithin(ls);
  }

  lemma {:induction false} CollapsedNonBlank(ls: seq<string>)
    ensures NonBlank(Collapsed(ls)) == NonBlank(ls)
    decreases |ls|
  {
    if ls != [] {
      var init := ls[..|ls| - 1];
      var l := ls[|ls| - 1];
      assert ls == init + [l];
      CollapsedNonBlank(init);
      NonBlankAppend(init, [l]);
      var p := Collapsed(init);
      if !IsBlank(l) {
        NonBlankAppend(p, [l]);
      } else if !(init != [] && IsBlank(init[|init| - 1])) {
        NonBlankAppend(p, [""]);
      }
    }
  }

  lemma {:induction false} CollapsedWithin(ls: seq<string>)
    ensures Within(Collapsed(ls), ls)
    decreases |ls|
  {
    if ls != [] {
      var init := ls[..|ls| - 1];
      CollapsedWithin(init);
      SliceShape(ls, 0, |ls| - 1);
      WithinTrans(Collapsed(init), init, ls);
    }
  }

  lemma {:induction false} DropLeadingSpec(ls: seq<string>)
    ensures var r := DropLeadingBlanks(ls);
      |r| <= |ls| && r == ls[|ls| - |r|..] && (r == [] || !IsBlank(r[0])) &&
      (forall k :: 0 <= k < |ls| - |r| ==> IsBlank(ls[k])) && NonBlank(r) == NonBlank(ls)
  {
    if ls != [] && IsBlank(ls[0]) {
      DropLeadingSpec(ls[1..]);
    }
  }

  lemma {:induction false} DropTrailingSpec(ls: seq<string>)
    ensures var r := DropTrailingBlanks(ls);
      |r| <= |ls| && r == ls[..|r|] && (r == [] || !IsBlank(r[|r| - 1])) &&
      (forall k :: |r| <= k < |ls| ==> IsBlank(ls[k])) && NonBlank(r) == NonBlank(ls)
  {
    if ls != [] && IsBlank(ls[|ls| - 1]) {
      var init := ls[..|ls| - 1];
      DropTrailingSpec(init);
      assert ls == init + [ls[|ls| - 1]];
      NonBlankAppend(init, [ls[|ls| - 1]]);
    }
  }

  /** Default mode: no two blank lines in a row, no blank line first or
      last, blank lines written empty, the non-blank lines kept in their
      order, and no other line added. */
  lemma CompactedShape(ls: seq<string>)
    ensures var c := Compacted(ls);
      NoBlankPair(c) && BlanksEmpty(c) && EndsNonBlank(c) && NonBlank(c) == NonBlank(ls) && Within(c, ls)
  {
    CompactedForm(ls);
    CompactedContent(ls);
  }

  /** The blank-line structure of the compacted lines. */
  lemma CompactedForm(ls: seq<string>)
    ensures var c := Compacted(ls);
      NoBlankPair(c) && BlanksEmpty(c) && EndsNonBlank(c)
  {
    var x := Collapsed(ls);
    CollapsedNoBlankPair(ls);
    LeadingDroppedForm(x);
    TrailingDroppedForm(DropLeadingBlanks(x));
  }

  /** Dropping the leading blank lines keeps the blank-line structure and
      leaves a first line that is not blank. */
  lemma LeadingDroppedForm(x: seq<string>)
    requires NoBlankPair(x) && BlanksEmpty(x)
    ensures var d := DropLeadingBlanks(x);
      NoBlankPair(d) && BlanksEmpty(d) && (d == [] || !IsBlank(d[0]))
  {
    var d := DropLeadingBlanks(x);
    DropLeadingSpec(x);
    SliceShape(x, |x| - |d|, |x|);
  }

  /** Dropping the trailing blank lines then leaves both ends non-blank. */
  lemma TrailingDroppedForm(d: seq<string>)
    requires NoBlankPair(d) && BlanksEmpty(d) && (d == [] || !IsBlank(d[0]))
    ensures var c := DropTrailingBlanks(d);
      NoBlankPair(c) && BlanksEmpty(c) && EndsNonBlank(c)
  {
    var c := DropTrailingBlanks(d);
    DropTrailingSpec(d);
    SliceShape(d, 0, |c|);
    if c != [] {
      assert c[0] == d[0];
    }
  }

  /** The compacted lines keep the non-blank lines and come from the input. */
  lemma CompactedContent(ls: seq<string>)
    ensures var c := Compacted(ls);
      NonBlank(c) == NonBlank(ls) && Within(c, ls)
  {
    var x := Collapsed(ls);
    var d := DropLeadingBlanks(x);
    var c := DropTrailingBlanks(d);
    CollapsedKeepsText(ls);
    DropLeadingSpec(x);
    DropTrailingSpec(d);
    WithinTrans(d, x, ls);
    WithinTrans(c, d, ls);
  }

  lemma {:induction false} CollapsedFixed(ls: seq<string>)
    requires NoBlankPair(ls) && BlanksEmpty(ls)
    ensures Collapsed(ls) == ls
  {
    if ls != [] {
      var init := ls[..|ls| - 1];
      SliceShape(ls, 0, |ls| - 1);
      CollapsedFixed(init);
      assert ls == init + [ls[|ls| - 1]];
      if IsBlank(ls[|ls| - 1]) && init != [] {
        assert init[|init| - 1] == ls[|ls| - 2];
      }
    }
  }

  /** A list already in the compacted shape is kept as it is. */
  lemma CompactedFixed(ls: seq<string>)
    requires NoBlankPair(ls) && BlanksEmpty(ls) && EndsNonBlank(ls)
    ensures Compacted(ls) == ls
  {
    CollapsedFixed(ls);
  }

  /** Both modes keep the non-blank lines and add only empty ones. */
  lemma CompactWithin(ls: seq<string>, removeAll: bool)
    ensures Within(Compact(ls, removeAll), ls)
    ensures NonBlank(Compact(ls, removeAll)) == NonBlank(ls)
  {
    if removeAll {
      NonBlankSpec(ls);
      NonBlankSpec(NonBlank(ls));
    } else {
      CompactedShape(ls);
    }
  }

  // ---------------------------------------------------------------------------
  // One line

  /** For a negative width Python's `n // w` and `n % w` are never positive,
      so the leading spaces of a line are dropped. */
  lemma NegativeWidthCounts(n: nat, w: int)
    requires w < 0
    ensures FloorDiv(n, w) <= 0 && FloorMod(n, w) <= 0
  {
    var m := -(n as int);
    var q := m / (-w);
    assert m == (-w) * q + m % (-w);
  }

  /** For a positive width, `n // w` tabs and `n % w` spaces make up `n`
      columns with fewer than `w` spaces. */
  lemma PositiveWidthCounts(n: nat, w: int)
    requires w > 0
    ensures 0 <= FloorDiv(n, w) && 0 <= FloorMod(n, w) < w
    ensures w * FloorDiv(n, w) + FloorMod(n, w) == n
    ensures n < w ==> FloorDiv(n, w) == 0 && FloorMod(n, w) == n
  {
    var q, r := n / w, n % w;
    assert FloorDiv(n, w) == q && w * q + r == n && 0 <= r < w;
    assert FloorMod(n, w) == r;
    if n < w {
      assert w * q < w * 1;
    }
  }

  /** A converted line has no trailing whitespace, and it is empty exactly
      when the input line is blank. */
  lemma ConvertTrimmed(line: string, w: int)
    requires w != 0
    ensures Trimmed(Convert(line, w))
    ensures Convert(line, w) == [] <==> IsBlank(line)
  {
    var r := RStrip(line);
    RStripSpec(line);
    var n := LeadingSpaces(r);
    if r == [] {
      assert FloorDiv(0, w) == 0 && FloorMod(0, w) == 0;
      assert SpacesIn(line, 0, |line|);
    } else {
      assert n < |r|;
      var c := Convert(line, w);
      assert c[|c| - 1] == r[|r| - 1];
      assert line[|r| - 1] == r[|r| - 1];
    }
  }

  /** A line that starts with a tab keeps its indentation: only spaces are
      counted. */
  lemma TabLedLineKept(line: string, w: int)
    requires w != 0 && line != [] && line[0] == '\t'
    ensures Convert(line, w) == RStrip(line)
  {
    var r := RStrip(line);
    assert r != [] ==> r[0] == '\t';
    assert FloorDiv(0, w) == 0 && FloorMod(0, w) == 0;
    assert r[0..] == r;
  }

  /** With a negative width the leading spaces are dropped and nothing
      replaces them. */
  lemma NegativeWidthDropsIndent(line: string, w: int)
    requires w < 0
    ensures Convert(line, w) == RStrip(line)[LeadingSpaces(RStrip(line))..]
  {
    NegativeWidthCounts(LeadingSpaces(RStrip(line)), w);
  }

  /** Width of the leading run of tabs and spaces, a tab counting `w`
      columns and a space one. */
  function IndentWidth(s: string, w: nat): nat {
    if s != [] && s[0] == ' ' then 1 + IndentWidth(s[1..], w)
    else if s != [] && s[0] == '\t' then w + IndentWidth(s[1..], w)
    else 0
  }

  /** The line after its leading run of tabs and spaces. */
  function AfterIndent(s: string): string {
    if s != [] && (s[0] == ' ' || s[0] == '\t') then AfterIndent(s[1..]) else s
  }

  lemma RepeatCons(c: char, k: nat, x: string)
    requires k > 0
    ensures (Repeat(c, k) + x)[0] == c && (Repeat(c, k) + x)[1..] == Repeat(c, k - 1) + x
  {
    var s := Repeat(c, k) + x;
    var t := Repeat(c, k - 1) + x;
    assert |s[1..]| == |t|;
    forall i | 0 <= i < |t|
      ensures s[1..][i] == t[i]
    {
      if i < k - 1 {
        assert s[i + 1] == c;
      } else {
        assert s[i + 1] == x[i - (k - 1)];
      }
    }
  }

  lemma {:induction false} IndentOfSpaces(k: nat, x: string, w: nat)
    ensures IndentWidth(Repeat(' ', k) + x, w) == k + IndentWidth(x, w)
    ensures AfterIndent(Repeat(' ', k) + x) == AfterIndent(x)
  {
    if k > 0 {
      RepeatCons(' ', k, x);
      IndentOfSpaces(k - 1, x, w);
    } else {
      assert Repeat(' ', k) + x == x;
    }
  }

  lemma {:induction false} IndentOfTabs(k: nat, x: string, w: nat)
    ensures IndentWidth(Repeat('\t', k) + x, w) == w * k + IndentWidth(x, w)
    ensures AfterIndent(Repeat('\t', k) + x) == AfterIndent(x)
  {
    if k > 0 {
      RepeatCons('\t', k, x);
      IndentOfTabs(k - 1, x, w);
      assert w * k == w + w * (k - 1);
    } else {
      assert Repeat('\t', k) + x == x;
    }
  }

  /** A line is its leading spaces followed by the rest. */
  lemma LeadingSplit(r: string)
    ensures r == Repeat(' ', LeadingSpaces(r)) + r[LeadingSpaces(r)..]
  {
    var n := LeadingSpaces(r);
    var t := Repeat(' ', n) + r[n..];
    assert |t| == |r|;
    forall i | 0 <= i < |r|
      ensures t[i] == r[i]
    {
      if i >= n {
        assert t[i] == r[n..][i - n];
      }
    }
  }

  /** For a positive width the indentation keeps its width, a tab counting
      `w` columns, and the text after it is the right-stripped line's. */
  lemma IndentWidthKept(line: string, w: int)
    requires w > 0
    ensures IndentWidth(Convert(line, w), w) == IndentWidth(RStrip(line), w)
    ensures AfterIndent(Convert(line, w)) == AfterIndent(RStrip(line))
  {
    var r := RStrip(line);
    var n := LeadingSpaces(r);
    var code := r[n..];
    LeadingSplit(r);
    IndentOfSpaces(n, code, w);
    PositiveWidthCounts(n, w);
    var q: nat, m: nat := FloorDiv(n, w), FloorMod(n, w);
    IndentOfSpaces(m, code, w);
    IndentOfTabs(q, Repeat(' ', m) + code, w);
    assert Convert(line, w) == Repeat('\t', q) + (Repeat(' ', m) + code);
  }

  /** A line without trailing whitespace that does not start with a space
      is read back unchanged. */
  lemma UnindentedSettled(c: string, w: int)
    requires w != 0 && Trimmed(c) && (c == [] || c[0] != ' ')
    ensures Convert(c + "\n", w) == c
  {
    RStripOf(c, "\n");
    assert LeadingSpaces(c) == 0;
    assert FloorDiv(0, w) == 0 && FloorMod(0, w) == 0;
    assert c[0..] == c;
  }

  /** A line without trailing whitespace that starts with fewer than `w`
      spaces is read back unchanged. */
  lemma ShortIndentSettled(m: nat, code: string, w: int)
    requires 0 <= m < w && (code == [] || code[0] != ' ') && Trimmed(Repeat(' ', m) + code)
    ensures Convert(Repeat(' ', m) + code + "\n", w) == Repeat(' ', m) + code
  {
    var c := Repeat(' ', m) + code;
    RStripOf(c, "\n");
    LeadingOfIndent(m, code);
    PositiveWidthCounts(m, w);
  }

  /** `m` spaces in front of code that does not start with a space are
      exactly the leading spaces. */
  lemma LeadingOfIndent(m: nat, code: string)
    requires code == [] || code[0] != ' '
    ensures LeadingSpaces(Repeat(' ', m) + code) == m
    ensures (Repeat(' ', m) + code)[m..] == code
  {
    var c := Repeat(' ', m) + code;
    assert c[m..] == code;
  }
  /** Converting a converted line again, after it has been written with its
      line feed and read back, changes nothing. */
  lemma ConvertSettled(line: string, w: int)
    requires w != 0
    ensures Convert(Convert(line, w) + "\n", w) == Convert(line, w)
  {
    var c := Convert(line, w);
    ConvertTrimmed(line, w);
    var r := RStrip(line);
    var n := LeadingSpaces(r);
    var code := r[n..];
    if w < 0 {
      NegativeWidthCounts(n, w);
      assert c == code;
      UnindentedSettled(c, w);
    } else {
      PositiveWidthCounts(n, w);
      var q: nat, m: nat := FloorDiv(n, w), FloorMod(n, w);
      if q > 0 {
        assert c[0] == '\t';
        UnindentedSettled(c, w);
      } else {
        assert c == Repeat(' ', m) + code;
        ShortIndentSettled(m, code, w);
      }
    }
  }

  // ---------------------------------------------------------------------------
  // The file

  /** Every line written is a line without trailing whitespace followed by
      exactly one line feed. */
  lemma WrittenLines(lines: seq<string>, w: int, removeAll: bool)
    requires Beautify(lines, w, removeAll).Some?
    ensures var out := Beautify(lines, w, removeAll).value;
      forall i :: 0 <= i < |out| ==>
        |out[i]| > 0 && out[i][|out[i]| - 1] == '\n' && Trimmed(out[i][..|out[i]| - 1])
  {
    var conv := Converted(lines, w);
    var c := Compact(conv, removeAll);
    CompactWithin(conv, removeAll);
    forall i | 0 <= i < |c|
      ensures Trimmed(c[i])
    {
      if c[i] != [] {
        var j :| 0 <= j < |conv| && conv[j] == c[i];
        ConvertTrimmed(lines[j], w);
      }
    }
    var out := Terminated(c);
    forall i | 0 <= i < |out|
      ensures |out[i]| > 0 && out[i][|out[i]| - 1] == '\n' && Trimmed(out[i][..|out[i]| - 1])
    {
      assert out[i][..|out[i]| - 1] == c[i];
    }
  }

  /** The empty line is written as a line feed and read back as it was. */
  lemma EmptyLineSettled(w: int)
    requires w != 0
    ensures Convert("\n", w) == []
  {
    RStripOf([], "\n");
    assert [] + "\n" == "\n";
    assert FloorDiv(0, w) == 0 && FloorMod(0, w) == 0;
  }

  /** Running the script on a file it has just written leaves the file as it
      is. */
  lemma SecondRunNoChange(lines: seq<string>, w: int, removeAll: bool)
    requires Beautify(lines, w, removeAll).Some?
    ensures var out := Beautify(lines, w, removeAll).value;
      Beautify(out, w, removeAll) == Some(out)
  {
    var conv := Converted(lines, w);
    var c := Compact(conv, removeAll);
    var out := Terminated(c);
    if w == 0 {
      assert lines == [] && conv == [];
      assert c == [];
    } else {
      CompactWithin(conv, removeAll);
      forall i | 0 <= i < |c|
        ensures Convert(out[i], w) == c[i]
      {
        if c[i] == [] {
          EmptyLineSettled(w);
        } else {
          var j :| 0 <= j < |conv| && conv[j] == c[i];
          ConvertSettled(lines[j], w);
        }
      }
      assert Converted(out, w) == c;
      if removeAll {
        NonBlankSpec(conv);
        NonBlankSpec(c);
      } else {
        CompactedShape(conv);
        CompactedFixed(c);
      }
    }
  }
}
