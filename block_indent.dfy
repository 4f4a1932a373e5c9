/** The block-indent stripper of `blockindentstrip.py`: one pass over the
    lines of a file with a single in-block flag; inside a `{ ... }` block each
    line loses one leading tab. */
module BlockIndent {
  import opened Text

  /** The stripped line starts with `{` (see `OpensIsStripTest`). */
  predicate OpensBlock(line: string) {
    LeadsWith(line, '{')
  }

  /** The stripped line starts with `}`. */
  predicate ClosesBlock(line: string) {
    LeadsWith(line, '}')
  }

  /** `line[1:]` when the line starts with a tab, the line otherwise. */
  function DropTab(line: string): (r: string)
    ensures line != [] && line[0] == '\t' ==> line == ['\t'] + r
    ensures (line == [] || line[0] != '\t') ==> r == line
  {
    if line != [] && line[0] == '\t' then line[1..] else line
  }

  /** The output line for `line`, given the flag before it. */
  function Convert(line: string, inBlock: bool): string {
    if OpensBlock(line) then line
    else if ClosesBlock(line) then (if inBlock then DropTab(line) else line)
    else if inBlock then DropTab(line)
    else line
  }

  /** The flag after `line`, given the flag before it. */
  function Next(line: string, inBlock: bool): bool {
    if OpensBlock(line) then true
    else if ClosesBlock(line) then false
    else inBlock
  }

  /** The flag as it stands before line `i` is processed. */
  function Flag(lines: seq<string>, i: nat): bool
    requires i <= |lines|
  {
    if i == 0 then false else Next(lines[i - 1], Flag(lines, i - 1))
  }

  /** The whole transform, line by line. */
  function Stripped(lines: seq<string>): (out: seq<string>)
    ensures |out| == |lines|
  {
    seq(|lines|, i requires 0 <= i < |lines| => Convert(lines[i], Flag(lines, i)))
  }

  /** Declarative reading of the flag: some earlier line opens a block and no
      line after it, before line `i`, closes one. */
  ghost predicate OpenedBefore(lines: seq<string>, i: nat)
    requires i <= |lines|
  {
    exists j :: 0 <= j < i && OpensBlock(lines[j]) &&
      forall k :: j < k < i ==> !ClosesBlock(lines[k])
  }

  /** The in-place loop: it carries the flag from line to line. */
  method RemoveBlockIndentation(lines: seq<string>) returns (out: seq<string>)
    ensures out == Stripped(lines)
  {
    out := [];
    var inBlock := false;
    for i := 0 to |lines|
      invariant |out| == i
      invariant inBlock == Flag(lines, i)
      invariant forall k {:trigger out[k]} :: 0 <= k < i ==> out[k] == Convert(lines[k], Flag(lines, k))
    {
      var line := lines[i];
      var opens, closes := OpensBlock(line), ClosesBlock(line);
      var kept: string;
      if opens {
        inBlock := true;
        kept := line;
      } else if closes {
        if inBlock && line != [] && line[0] == '\t' {
          kept := line[1..];
        } else {
          kept := line;
        }
        inBlock := false;
      } else if inBlock {
        if line != [] && line[0] == '\t' {
          kept := line[1..];
        } else {
          kept := line;
        }
      } else {
        kept := line;
      }
      assert kept == Convert(lines[i], Flag(lines, i));
      out := out + [kept];
    }
  }

  // ---------------------------------------------------------------------------

  /** The two tests are the script's `line.strip().startswith(...)`. */
  lemma OpensIsStripTest(line: string)
    ensures OpensBlock(line) <==> StartsWith(Strip(line), "{")
    ensures ClosesBlock(line) <==> StartsWith(Strip(line), "}")
  {
    LeadsWithIsStripStart(line, '{');
    LeadsWithIsStripStart(line, '}');
  }

  /** The flag is set exactly when the nearest earlier brace line opens a
      block. */
  lemma {:induction false} FlagMeansOpened(lines: seq<string>, i: nat)
    requires i <= |lines|
    ensures Flag(lines, i) <==> OpenedBefore(lines, i)
  {
    if i > 0 {
      FlagMeansOpened(lines, i - 1);
      var l := lines[i - 1];
      if OpensBlock(l) {
        assert OpenedBefore(lines, i) by {
          assert OpensBlock(lines[i - 1]);
        }
      } else if ClosesBlock(l) {
        ClosedAt(lines, i);
      } else {
        OpenedCarried(lines, i);
      }
    }
  }

  /** A closing line that opens nothing ends every open block. */
  lemma ClosedAt(lines: seq<string>, i: nat)
    requires 0 < i <= |lines| && ClosesBlock(lines[i - 1])
    ensures !OpenedBefore(lines, i)
  {
    forall j | 0 <= j < i && OpensBlock(lines[j])
      ensures exists k :: j < k < i && ClosesBlock(lines[k])
    {
      assert j < i - 1 && ClosesBlock(lines[i - 1]);
    }
  }

  /** A line that neither opens nor closes a block leaves the reading
      unchanged. */
  lemma OpenedCarried(lines: seq<string>, i: nat)
    requires 0 < i <= |lines| && !OpensBlock(lines[i - 1]) && !ClosesBlock(lines[i - 1])
    ensures OpenedBefore(lines, i) <==> OpenedBefore(lines, i - 1)
  {
    if OpenedBefore(lines, i) {
      var j :| 0 <= j < i && OpensBlock(lines[j]) &&
        forall k :: j < k < i ==> !ClosesBlock(lines[k]);
      assert j < i - 1;
      assert OpenedBefore(lines, i - 1);
    }
    if OpenedBefore(lines, i - 1) {
      var j :| 0 <= j < i - 1 && OpensBlock(lines[j]) &&
        forall k :: j < k < i - 1 ==> !ClosesBlock(lines[k]);
      assert forall k :: j < k < i ==> !ClosesBlock(lines[k]);
    }
  }

  /** Line count is preserved and every output line is its input line, or
      that line without one leading tab. */
  lemma LinesKeptOrDetabbed(lines: seq<string>, i: nat)
    requires i < |lines|
    ensures Stripped(lines)[i] == lines[i] ||
            (lines[i] != [] && lines[i][0] == '\t' && Stripped(lines)[i] == lines[i][1..])
  {
  }

  /** A line opening a block is copied unchanged. */
  lemma OpeningLineKept(lines: seq<string>, i: nat)
    requires i < |lines| && OpensBlock(lines[i])
    ensures Stripped(lines)[i] == lines[i]
    ensures Flag(lines, i + 1)
  {
  }

  /** A closing line loses a leading tab only when a block is open, and it
      always clears the flag. */
  lemma ClosingLine(lines: seq<string>, i: nat)
    requires i < |lines| && ClosesBlock(lines[i])
    ensures Stripped(lines)[i] == if OpenedBefore(lines, i) then DropTab(lines[i]) else lines[i]
    ensures !Flag(lines, i + 1)
  {
    FlagMeansOpened(lines, i);
  }

  /** Any other line loses one leading tab inside a block and is copied
      unchanged outside one. */
  lemma OtherLine(lines: seq<string>, i: nat)
    requires i < |lines| && !OpensBlock(lines[i]) && !ClosesBlock(lines[i])
    ensures Stripped(lines)[i] == if OpenedBefore(lines, i) then DropTab(lines[i]) else lines[i]
  {
    FlagMeansOpened(lines, i);
  }

  /** The state is single-level: after a closing line, every line up to the
      next opening line is copied unchanged, even inside an outer block. */
  lemma AfterCloseUnchanged(lines: seq<string>, c: nat, j: nat)
    requires c < j < |lines| && ClosesBlock(lines[c])
    requires forall k :: c < k <= j ==> !OpensBlock(lines[k])
    ensures Stripped(lines)[j] == lines[j]
  {
    FlagMeansOpened(lines, j);
    forall o | 0 <= o < j && OpensBlock(lines[o])
      ensures exists k :: o < k < j && ClosesBlock(lines[k])
    {
      assert o < c;
      assert ClosesBlock(lines[c]);
    }
  }

  /** `Name {` on one line does not open a block: only a line whose first
      non-blank character is `{` does. */
  lemma NamedOpeningIgnored(name: string)
    requires name != [] && !IsSpace(name[0]) && name[0] != '{'
    ensures !OpensBlock(name + " {\n")
  {
    var line := name + " {\n";
    assert line[0] == name[0];
  }

  /** A file in which no line opens a block is left unchanged. */
  lemma NoOpeningNoChange(lines: seq<string>)
    requires forall k :: 0 <= k < |lines| ==> !OpensBlock(lines[k])
    ensures Stripped(lines) == lines
  {
    forall i | 0 <= i < |lines|
      ensures Stripped(lines)[i] == lines[i]
    {
      FlagMeansOpened(lines, i);
    }
  }
}
