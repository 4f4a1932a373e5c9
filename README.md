# Verified model of the MBII `.mbch` maintenance scripts

This project is a Dafny model of nine maintenance scripts from `ext_data/mb2/` of
the MBII Galactic Conquest repository. Each script rewrites `.mbch` class files (or
renames them). Every script is modelled as a transformation of the text it reads.
Files and directories become values: a file's content is a `string`, or a
`seq<string>` of the lines `readlines()` returns, each line keeping its line break.
The Python regular expressions are written out as matchers over strings. Each
matcher has a declarative reading of its pattern, and lemmas tie the two together.

| file | module | script |
|---|---|---|
| `text.dfy` | `Text` | string helpers shared by all scripts: `str.strip`/`rstrip`/`lstrip`, `str.replace`, `startswith`, `\s` and `\d` runs, decimal digits |
| `two_tabs.dfy` | `TwoTabs` | `2tabsto1.py`: every `\t\t` becomes `\t` |
| `reset_desc.dfy` | `ResetDesc` | `resetdesc.py`: `description "…"` becomes `description ""` |
| `block_indent.dfy` | `BlockIndent` | `blockindentstrip.py`: one leading tab is removed inside `{ … }` blocks |
| `invalid_remove.dfy` | `InvalidRemove` | `invalidremove.py`: unset `c_att_skill/names/ranks` triplets are deleted |
| `empty_pbui.dfy` | `EmptyPbui` | `emptypbui.py`: the custom-build keys, headed by `isCustomBuild`, are added to the first `ClassInfo { … }` block |
| `respawn.dfy` | `Respawn` | `respawnTimeAdjust.py`: a `respawnCustomTime` line is set, or inserted in the first `ClassInfo` block |
| `beautize.dfy` | `Beautize` | `beautize.py`: indentation to tabs, trailing whitespace and blank lines tidied |
| `batch_rename.dfy` | `BatchRename` | `batchrename.py`: files renamed, and the old names replaced in their contents |
| `pbadjust.dfy` | `Pbadjust` | `pbadjust.py`: attribute triplets renumbered in blocks, with `//PBADJUST B:G` directives |

The shapes of the scripts are kept:

- A loop that carries state from line to line is a `method` with a loop. Its
  `ensures` ties the result to a specification function. Examples:
  `BlockIndent.RemoveBlockIndentation`, `InvalidRemove.RemoveInvalidTriplets`,
  `Pbadjust.Renumberer.ProcessFile`.
- `pbadjust.py` keeps its block size and gap in module globals. These survive from
  one file to the next. In the model they are the fields of the class
  `Pbadjust.Renumberer`.
- Each regex match, `re.sub` and `str.replace` is a recursive function that scans
  left to right. How far each is pinned down differs:
  - Two substitutions are proved equal, for all inputs, to an independent
    reference. `TwoTabs.CollapseIsHalveRuns` does this for `replace('\t\t', '\t')`.
    `BatchRename.SubWholeIsTokenSub` and `BatchRename.ApplyNamesIsTokenMap` do it
    for the whole-word `re.sub` renames, for names made of word characters only.
  - The other substitutions have no such reference. `ResetDesc.ResetAll` and
    `Text.ReplaceAll` (the `replace` of `emptypbui.py`) are characterised by step
    lemmas and first-occurrence lemmas: `ResetDesc.FirstSpanReplaced`,
    `Text.ReplaceAllFirst`, `EmptyPbui.SpanRewritten`. `ResetDesc.ResetIdempotent`
    and `Text.ReplaceAllCopies` add what holds over the whole text.
  - The matchers behind them are proved sound and complete against the pattern's
    shape. Examples: `ResetDesc.DescMatchSound`/`DescMatchComplete`,
    `EmptyPbui.SpanAtSound`/`SpanAtComplete`, `Respawn.KeyLineIsPattern`,
    `InvalidRemove.KeyValueIndexSound`/`KeyValueIndexComplete`.
  - `Text.NextIndex` finds the next quote. It stands for the lazy `.*?"` of
    `resetdesc.py`. No script calls `str.find`.

## Model

| member | source | states |
|---|---|---|
| TwoTabs.RunCollapse | ext_data/mb2/2tabsto1.py:35 | a run of `k` tabs, followed by a non-tab, becomes `(k + 1) / 2` tabs |
| TwoTabs.CollapseIsHalveRuns | ext_data/mb2/2tabsto1.py:35 | `replace('\t\t', '\t')` equals the run-by-run reference, which halves every tab run, rounding up |
| TwoTabs.NonTabsUntouched | ext_data/mb2/2tabsto1.py:35 | once the tabs are removed, the result and the input are the same text |
| TwoTabs.LengthShrinksExactlyOnDoubleTab | ext_data/mb2/2tabsto1.py:35 | the content never grows; it keeps its length exactly when it has no `\t\t` |
| TwoTabs.FixedPoints | ext_data/mb2/2tabsto1.py:35 | the content is unchanged if and only if it holds no `\t\t` |
| TwoTabs.DropTabsAppend | ext_data/mb2/2tabsto1.py:35 | removing tabs distributes over concatenation; this is used for the tab-free comparison |
| ResetDesc.DescMatchSound | ext_data/mb2/resetdesc.py:23 | every match the matcher reports is `description`, whitespace, a quote, a quote-free value (line feeds allowed) and a quote |
| ResetDesc.DescMatchComplete | ext_data/mb2/resetdesc.py:23 | every span of that shape at a position is the one reported there, so the lazy `.*?` gives one length |
| ResetDesc.DescMatchAt | ext_data/mb2/resetdesc.py:23 | the matcher, given the parts of a span, reports its length |
| ResetDesc.DescSpanAt | ext_data/mb2/resetdesc.py:23 | a span given by its parts has the pattern's shape |
| ResetDesc.NoSpanUnchanged | ext_data/mb2/resetdesc.py:46 | with no match at or after `i`, the rest of the text is copied |
| ResetDesc.ResetStepSome | ext_data/mb2/resetdesc.py:46 | a match at the front becomes `description ""`, and the scan resumes after it |
| ResetDesc.ResetStepNone | ext_data/mb2/resetdesc.py:46 | with no match at the front, the first character is copied |
| ResetDesc.FirstSpanReplaced | ext_data/mb2/resetdesc.py:46 | the text before the first match is copied; the match is replaced and the rest is scanned |
| ResetDesc.ResetNeverGrows | ext_data/mb2/resetdesc.py:46 | the substitution never makes the content longer |
| ResetDesc.BlankedIsFixed | ext_data/mb2/resetdesc.py:46 | `description ""` is matched whole and replaced by itself |
| ResetDesc.BlankedHead | ext_data/mb2/resetdesc.py:46 | text that starts with `description ""` keeps it and has the rest substituted |
| ResetDesc.QuoteFreeKept | ext_data/mb2/resetdesc.py:46 | text without a quote has no match and is copied |
| ResetDesc.FirstCopied | ext_data/mb2/resetdesc.py:46 | an output that does not start with `d` started with a copied character |
| ResetDesc.ConsSplit | ext_data/mb2/resetdesc.py:46 | slicing a sequence with one element put in front |
| ResetDesc.LacksSplit | ext_data/mb2/resetdesc.py:46 | a prefix without a character, split at its head |
| ResetDesc.CopiedPrefix | ext_data/mb2/resetdesc.py:46 | an output prefix without `d` is a copy of the input prefix, and the rest is the substitution of the rest |
| ResetDesc.MatchHead | ext_data/mb2/resetdesc.py:23 | after the first character, a match's keyword, whitespace and quote have no `d` |
| ResetDesc.HeadCopied | ext_data/mb2/resetdesc.py:23 | a keyword, whitespace and quote that agree with the input are in the input |
| ResetDesc.QuoteFrom | ext_data/mb2/resetdesc.py:46 | a quote in the output comes from a quote in the input |
| ResetDesc.QuoteAfter | ext_data/mb2/resetdesc.py:46 | a quote past a copied stretch of the output comes from a quote past it in the input |
| ResetDesc.SpanInOutput | ext_data/mb2/resetdesc.py:23-46 | a match at the front of the output, where the input had none, would be a match in the input |
| ResetDesc.NoMatchKept | ext_data/mb2/resetdesc.py:23-46 | where the input has no match at the front, neither has the output after the first character is copied |
| ResetDesc.ResetIdempotent | ext_data/mb2/resetdesc.py:46-48 | substituting twice is substituting once, so a second run finds `modified` false |
| ResetDesc.ValueBlanked | ext_data/mb2/resetdesc.py:16-23 | `description "v"` with a quote-free value, even one spanning lines, becomes `description ""` |
| ResetDesc.NoWordBoundary | ext_data/mb2/resetdesc.py:23 | the pattern has no `\b`, so text glued before `description` is kept and the span is still replaced |
| ResetDesc.UnmatchedLeftAlone | ext_data/mb2/resetdesc.py:18-21 | without whitespace before the quote, or without a closing quote, there is no match |
| BlockIndent.RemoveBlockIndentation | ext_data/mb2/blockindentstrip.py:19-46 | the loop with its `in_block` flag produces `Stripped(lines)`, line for line |
| BlockIndent.OpensIsStripTest | ext_data/mb2/blockindentstrip.py:23-30 | the opening and closing tests are `line.strip().startswith('{')` and `startswith('}')` |
| BlockIndent.FlagMeansOpened | ext_data/mb2/blockindentstrip.py:20-36 | the flag is set before line `i` exactly when some earlier line opens a block and no line after it closes one |
| BlockIndent.ClosedAt | ext_data/mb2/blockindentstrip.py:30-36 | after a closing line no block is open |
| BlockIndent.OpenedCarried | ext_data/mb2/blockindentstrip.py:38-46 | a line that neither opens nor closes a block leaves the open/closed state as it was |
| BlockIndent.LinesKeptOrDetabbed | ext_data/mb2/blockindentstrip.py:22-46 | each output line is its input line, or that line without one leading tab |
| BlockIndent.OpeningLineKept | ext_data/mb2/blockindentstrip.py:26-28 | a `{` line is kept as it is and opens a block |
| BlockIndent.ClosingLine | ext_data/mb2/blockindentstrip.py:30-36 | a `}` line loses one leading tab only inside a block, and it ends the block |
| BlockIndent.OtherLine | ext_data/mb2/blockindentstrip.py:38-46 | any other line loses one leading tab exactly when a block is open |
| BlockIndent.AfterCloseUnchanged | ext_data/mb2/blockindentstrip.py:36-46 | lines after a `}`, up to the next `{`, are unchanged |
| BlockIndent.NamedOpeningIgnored | ext_data/mb2/blockindentstrip.py:26 | `Name {` on one line does not open a block, because only a line that starts with `{` does |
| BlockIndent.NoOpeningNoChange | ext_data/mb2/blockindentstrip.py:19-46 | a file with no `{` line is written back unchanged |
| InvalidRemove.TripletAt | ext_data/mb2/invalidremove.py:50-62 | the test at line `i` holds exactly when `i`, `i+1` and `i+2` exist and form an unset triplet with one index text |
| InvalidRemove.RemoveInvalidTriplets | ext_data/mb2/invalidremove.py:42-71 | the `while` loop, which skips three lines or keeps one, produces `Kept(lines)` |
| InvalidRemove.KeyValueIndexSound | ext_data/mb2/invalidremove.py:23-25 | a reported index comes from a line that is the key, a digit string, whitespace, the value and optional whitespace |
| InvalidRemove.KeyValueIndexComplete | ext_data/mb2/invalidremove.py:23-25 | every line of that shape is matched, and its digit string is the reported group |
| InvalidRemove.KeyValueIndexAt | ext_data/mb2/invalidremove.py:23-25 | the matcher on a line given by the positions where its parts end |
| InvalidRemove.ShapedFromRuns | ext_data/mb2/invalidremove.py:23-25 | the runs the matcher measured give the shape, with the digit run as its index |
| InvalidRemove.TabbedLineIndex | ext_data/mb2/invalidremove.py:11-13 | `c_att_<kind>_N<TAB><sentinel><LF>` matches its kind's pattern with index `N` |
| InvalidRemove.KindsDiffer | ext_data/mb2/invalidremove.py:23-25 | a line that starts with one kind's prefix never matches another kind's pattern |
| InvalidRemove.ScanIsSubsequence | ext_data/mb2/invalidremove.py:46-71 | for any triplet test, the kept lines are a subsequence of the input |
| InvalidRemove.ScanRemovesThrees | ext_data/mb2/invalidremove.py:66 | lines are removed three at a time |
| InvalidRemove.ScanKeeps | ext_data/mb2/invalidremove.py:69-71 | a line that no triplet contains keeps its number of occurrences |
| InvalidRemove.ScanConcat | ext_data/mb2/invalidremove.py:46-71 | with no triplet across the seam, the scan of `a + b` is the scan of `a` followed by the scan of `b` |
| InvalidRemove.KeptIsSubsequence | ext_data/mb2/invalidremove.py:73-76 | the written lines are a subsequence of the lines read: nothing is added, moved or edited |
| InvalidRemove.RemovedInThrees | ext_data/mb2/invalidremove.py:66 | the file loses a multiple of three lines |
| InvalidRemove.OnlySentinelsRemoved | ext_data/mb2/invalidremove.py:23-25 | a line that matches none of the three patterns keeps its number of occurrences |
| InvalidRemove.UnanchoredLinesKept | ext_data/mb2/invalidremove.py:50 | `match` anchors at the line start, so a line not starting with `c_att_` is never removed |
| InvalidRemove.KeptStepDrop | ext_data/mb2/invalidremove.py:61-67 | a triplet at the front is skipped |
| InvalidRemove.KeptStepKeep | ext_data/mb2/invalidremove.py:69-71 | otherwise the first line is kept |
| InvalidRemove.NoSkillSentinelUnchanged | ext_data/mb2/invalidremove.py:50-52 | a file without an unset skill line is written back unchanged |
| InvalidRemove.PaddedIndexKept | ext_data/mb2/invalidremove.py:61-62 | the index texts are compared as strings, so `5` and `05` do not form a triplet |
| InvalidRemove.TripletRemoved | ext_data/mb2/invalidremove.py:10-14 | an unset triplet between other lines is removed, and the lines around it are kept as if it had not been there |
| InvalidRemove.SeamBeforeTriplet | ext_data/mb2/invalidremove.py:58-62 | no triplet starts in the two lines just before an unset skill line |
| InvalidRemove.TripletDropped | ext_data/mb2/invalidremove.py:61-67 | an unset triplet at the front is dropped |
| EmptyPbui.SpanAt | ext_data/mb2/emptypbui.py:50 | a match found at `p` starts at `p`, and its groups lie within the content in order |
| EmptyPbui.FindSpan | ext_data/mb2/emptypbui.py:50 | `re.search` reports a match at or after `p`, within the content |
| EmptyPbui.SpanAtSound | ext_data/mb2/emptypbui.py:46-50 | every match is `ClassInfo`, whitespace, `{`, a lazy body without `}`, `}` and the whole whitespace run after it |
| EmptyPbui.SpanAtOpened | ext_data/mb2/emptypbui.py:46-50 | a match holds the pattern up to its closing brace |
| EmptyPbui.OpenedMatches | ext_data/mb2/emptypbui.py:46-50 | text that holds the pattern up to `}` at `p` is matched there, with the greedy `\s*` taking the whole whitespace run |
| EmptyPbui.SpanAtComplete | ext_data/mb2/emptypbui.py:46-50 | every span of the pattern's shape is the match reported at its start |
| EmptyPbui.FindSpanSpec | ext_data/mb2/emptypbui.py:50 | the search reports the leftmost position with a match, and none when no position has one |
| EmptyPbui.FindSpanFound | ext_data/mb2/emptypbui.py:50 | a reported match is the one at its start, and no earlier position matches |
| EmptyPbui.FindSpanMissing | ext_data/mb2/emptypbui.py:50 | with nothing reported, no position matches |
| EmptyPbui.FirstSpan | ext_data/mb2/emptypbui.py:50-52 | the reported block is a span of the pattern and no span starts before it; with none reported there is no span at all |
| EmptyPbui.MarkerPresentNoChange | ext_data/mb2/emptypbui.py:42 | content holding `isCustomBuild` anywhere is left alone |
| EmptyPbui.NoSpanNoChange | ext_data/mb2/emptypbui.py:89-90 | content with no `ClassInfo { … }` block is left alone |
| EmptyPbui.PaddedSpec | ext_data/mb2/emptypbui.py:63-65 | the inner text gets a line feed exactly when it is not blank and does not already end with one, and then ends with one |
| EmptyPbui.FragmentHasMarker | ext_data/mb2/emptypbui.py:14-29 | the inserted text holds `isCustomBuild` |
| EmptyPbui.NewBlockHasMarker | ext_data/mb2/emptypbui.py:74-79 | the rebuilt block holds the inserted text's marker |
| EmptyPbui.RewriteHasMarker | ext_data/mb2/emptypbui.py:83 | replacing the block's text with the rebuilt block leaves the marker in the content |
| EmptyPbui.InjectedHasMarker | ext_data/mb2/emptypbui.py:83-87 | written content always holds `isCustomBuild` |
| EmptyPbui.SecondRunNoChange | ext_data/mb2/emptypbui.py:42 | running the script on its own output changes nothing: the edit is idempotent |
| EmptyPbui.OpenedMoves | ext_data/mb2/emptypbui.py:46-50 | a copy of a matched block's text, wherever it sits, holds the pattern up to its `}` |
| EmptyPbui.HeadMoves | ext_data/mb2/emptypbui.py:46 | `ClassInfo` is still present in a copy of the text |
| EmptyPbui.BodyMoves | ext_data/mb2/emptypbui.py:47-48 | the braces and the brace-free body are still present in a copy |
| EmptyPbui.SpacesMove | ext_data/mb2/emptypbui.py:46-48 | a whitespace run is still present in a copy |
| EmptyPbui.NoCopyBefore | ext_data/mb2/emptypbui.py:83 | no copy of the block's text starts before the first match, so `replace` first replaces the block itself |
| EmptyPbui.RewriteAtSpan | ext_data/mb2/emptypbui.py:83 | `content.replace(group(0), block)` copies the text before the match, writes the block, and replaces the copies in the rest |
| EmptyPbui.SpanRewritten | ext_data/mb2/emptypbui.py:74-87 | the written content is the text before the block, the rebuilt block, and the rest with every copy of the old block replaced too |
| EmptyPbui.SpanExtends | ext_data/mb2/emptypbui.py:50 | a span that ends the text is still a span when text that does not start with whitespace follows |
| EmptyPbui.CopiesMatchAtStart | ext_data/mb2/emptypbui.py:50 | in `n` copies of one block, the search finds the first copy |
| EmptyPbui.CopiesRewrite | ext_data/mb2/emptypbui.py:83 | `replace` rewrites every one of the `n` copies, not only the first |
| EmptyPbui.EveryCopyReplaced | ext_data/mb2/emptypbui.py:50-87 | a file made of `n` identical `ClassInfo` blocks gets the keys in every block |
| Respawn.Lower | ext_data/mb2/respawnTimeAdjust.py:18 | case folding for `re.IGNORECASE` keeps whitespace and non-whitespace apart |
| Respawn.FirstRespawn | ext_data/mb2/respawnTimeAdjust.py:40-41 | the line found is at or after the start and matches the pattern |
| Respawn.FirstOpening | ext_data/mb2/respawnTimeAdjust.py:57-64 | the line found is at or after the start and names `ClassInfo` with a `{` on it or on the next line |
| Respawn.BraceLine | ext_data/mb2/respawnTimeAdjust.py:59-63 | the brace line is a line of the file |
| Respawn.ZeroFrom | ext_data/mb2/respawnTimeAdjust.py:71-79 | the line where the depth reaches zero is at or after the start |
| Respawn.InsertionIndex | ext_data/mb2/respawnTimeAdjust.py:66-97 | the new line goes at a position within the file, the end included |
| Respawn.UpdateRespawnTime | ext_data/mb2/respawnTimeAdjust.py:39-97 | the two passes, with their `break`s and fallbacks, produce `Upsert(lines)` and its `file_modified` flag |
| Respawn.FirstPass | ext_data/mb2/respawnTimeAdjust.py:39-49 | the first pass finds a line exactly when one matches; it rewrites only that line, and only when its stripped text differs |
| Respawn.FindBlockStart | ext_data/mb2/respawnTimeAdjust.py:53-64 | the index of the first `ClassInfo` brace line, or -1 |
| Respawn.FindBlockEnd | ext_data/mb2/respawnTimeAdjust.py:68-79 | the first line after the brace where the brace count reaches zero, or -1 |
| Respawn.AppendIsInsertAtEnd | ext_data/mb2/respawnTimeAdjust.py:83-95 | `append` is the insertion at the end |
| Respawn.UpsertWithoutMatch | ext_data/mb2/respawnTimeAdjust.py:52-97 | without a matching line, the setting is inserted at the insertion index |
| Respawn.KeyLineIsPattern | ext_data/mb2/respawnTimeAdjust.py:18 | the matcher accepts a line if and only if it has the shape of `^\s*key[\s\t]+.*$`, ignoring case |
| Respawn.KeyLineMatches | ext_data/mb2/respawnTimeAdjust.py:18 | an accepted line has the pattern's shape |
| Respawn.PatternMatched | ext_data/mb2/respawnTimeAdjust.py:18 | a line of the pattern's shape is accepted |
| Respawn.WitnessMatched | ext_data/mb2/respawnTimeAdjust.py:18 | a line given by its two whitespace runs is accepted |
| Respawn.NoCaseHead | ext_data/mb2/respawnTimeAdjust.py:18 | a case-insensitive match of the key starts with a non-space when the key does |
| Respawn.SpaceRunReaches | ext_data/mb2/respawnTimeAdjust.py:18 | a greedy `\s*` reaches at least as far as any whitespace stretch |
| Respawn.KeyValueLine | ext_data/mb2/respawnTimeAdjust.py:18-21 | `key<TAB>value<LF>` matches the pattern |
| Respawn.KeyValueStrip | ext_data/mb2/respawnTimeAdjust.py:43 | stripping `key<TAB>value<LF>` gives `key<TAB>value` |
| Respawn.SettingLineMatches | ext_data/mb2/respawnTimeAdjust.py:43-45 | the written line matches the pattern and strips to the setting |
| Respawn.IndentedAnyCase | ext_data/mb2/respawnTimeAdjust.py:18 | indentation and any letter case are accepted |
| Respawn.GluedKeyRejected | ext_data/mb2/respawnTimeAdjust.py:18 | a key with no whitespace after it is not a match |
| Respawn.RespawnLineExamples | ext_data/mb2/respawnTimeAdjust.py:18 | `respawnCustomTime` indented in any case is matched; `respawnCustomTimeX` is not |
| Respawn.FirstRespawnSpec | ext_data/mb2/respawnTimeAdjust.py:40-49 | no line before the one found matches, and no line matches when none is found |
| Respawn.FirstRespawnFinds | ext_data/mb2/respawnTimeAdjust.py:40-49 | the first matching line is the one found |
| Respawn.FirstOpeningSpec | ext_data/mb2/respawnTimeAdjust.py:57-64 | no earlier line opens the block, and none does when nothing is found |
| Respawn.ZeroFromSpec | ext_data/mb2/respawnTimeAdjust.py:71-79 | the depth reaches zero on the line found and at no line before it; when nothing is found it never does |
| Respawn.UpdateOnMatch | ext_data/mb2/respawnTimeAdjust.py:40-49 | with a match, only that line can change, and `file_modified` holds exactly when the lines changed |
| Respawn.UpdateWithoutMatch | ext_data/mb2/respawnTimeAdjust.py:52-97 | without a match, one line is added, it is the setting, and removing it gives back the input |
| Respawn.InsertedBeforeClose | ext_data/mb2/respawnTimeAdjust.py:66-83 | the setting goes just before the line that closes the first `ClassInfo` block |
| Respawn.AppendedOtherwise | ext_data/mb2/respawnTimeAdjust.py:86-97 | with no block, or no closing line, the setting is appended |
| Respawn.SecondRunNoChange | ext_data/mb2/respawnTimeAdjust.py:39-97 | updating the line list the update produced changes nothing and leaves `file_modified` false |
| Respawn.SecondRunAfterMatch | ext_data/mb2/respawnTimeAdjust.py:40-49 | after an update in place, a second run finds the setting and changes nothing |
| Respawn.SecondRunAfterInsert | ext_data/mb2/respawnTimeAdjust.py:52-97 | after an insertion into the line list, updating it again finds the inserted line and changes nothing |
| Respawn.GluedSettingAppended | ext_data/mb2/respawnTimeAdjust.py:93-102 | a file whose last line `x` has no line feed gets the setting appended; `writelines` glues the two into one line, which is not a match, so the next run appends again |
| Beautize.LeadingSpaces | ext_data/mb2/beautize.py:39-40 | `len(line) - len(line.lstrip(' '))` counts the spaces, and only the spaces, that start the line |
| Beautize.Converted | ext_data/mb2/beautize.py:34-50 | every line read gives exactly one converted line |
| Beautize.Terminated | ext_data/mb2/beautize.py:80 | every kept line gives exactly one written line |
| Beautize.BeautifyLines | ext_data/mb2/beautize.py:28-91 | `beautify_file` on the lines read: it fails (a `ZeroDivisionError` caught by the handler) exactly when the width is 0 and the file has a line, and otherwise writes `Beautify`'s lines |
| Beautize.ConvertLines | ext_data/mb2/beautize.py:33-50 | the conversion loop produces `Converted(lines, w)` |
| Beautize.CollapseBlankRuns | ext_data/mb2/beautize.py:59-69 | the loop with its `previous_line_was_blank` flag produces `Collapsed(ls)` |
| Beautize.PopLeadingBlanks | ext_data/mb2/beautize.py:72-73 | `pop(0)` while the first line is blank produces `DropLeadingBlanks(ls)` |
| Beautize.PopTrailingBlanks | ext_data/mb2/beautize.py:76-77 | `pop()` while the last line is blank produces `DropTrailingBlanks(ls)` |
| Beautize.WithinTrans | ext_data/mb2/beautize.py:53-77 | "every line is an input line or empty" composes over the steps |
| Beautize.SliceShape | ext_data/mb2/beautize.py:72-77 | popping lines from either end keeps the blank-line shape, and keeps only input lines |
| Beautize.NonBlankAppend | ext_data/mb2/beautize.py:56 | the filter distributes over concatenation |
| Beautize.NonBlankSpec | ext_data/mb2/beautize.py:56 | `--no-blank-lines` keeps every non-blank line and no blank one, and changes nothing when there is no blank line |
| Beautize.CollapsedLast | ext_data/mb2/beautize.py:59-69 | the collapsed list ends with a blank line exactly when the input does |
| Beautize.CollapsedNoBlankPair | ext_data/mb2/beautize.py:63-66 | after collapsing, no two blank lines are adjacent and every blank line is empty |
| Beautize.CollapsedKeepsText | ext_data/mb2/beautize.py:59-69 | collapsing keeps the non-blank lines in order and adds only empty lines |
| Beautize.CollapsedNonBlank | ext_data/mb2/beautize.py:67-69 | collapsing keeps the non-blank lines in order |
| Beautize.CollapsedWithin | ext_data/mb2/beautize.py:63-69 | collapsing adds only empty lines |
| Beautize.DropLeadingSpec | ext_data/mb2/beautize.py:72-73 | the leading pops remove exactly the blank lines at the front, so a non-blank line or nothing comes first |
| Beautize.DropTrailingSpec | ext_data/mb2/beautize.py:76-77 | the trailing pops remove exactly the blank lines at the end |
| Beautize.CompactedShape | ext_data/mb2/beautize.py:58-77 | the default mode leaves at most one blank line in a row, each one empty, none at either end, and the non-blank lines of the input in order |
| Beautize.CompactedForm | ext_data/mb2/beautize.py:58-77 | the default mode leaves no blank pair, only empty blank lines and none at either end |
| Beautize.LeadingDroppedForm | ext_data/mb2/beautize.py:72-73 | popping the leading blanks keeps the collapsed shape and leaves no blank line first |
| Beautize.TrailingDroppedForm | ext_data/mb2/beautize.py:76-77 | popping the trailing blanks then leaves no blank line at either end |
| Beautize.CompactedContent | ext_data/mb2/beautize.py:58-77 | the default mode keeps the non-blank lines in order and adds only empty lines |
| Beautize.CollapsedFixed | ext_data/mb2/beautize.py:59-69 | a list with no blank pair and only empty blank lines is collapsed to itself |
| Beautize.CompactedFixed | ext_data/mb2/beautize.py:58-77 | a list already in the compacted shape is left as it is |
| Beautize.CompactWithin | ext_data/mb2/beautize.py:53-77 | in both modes the non-blank lines survive in order and only empty lines are added |
| Beautize.NegativeWidthCounts | ext_data/mb2/beautize.py:43-44 | with a negative `--tab-width`, Python's floor `//` and `%` give no tabs and no spaces |
| Beautize.PositiveWidthCounts | ext_data/mb2/beautize.py:43-44 | with a positive width, the spaces split into whole tabs and a remainder below the width |
| Beautize.ConvertTrimmed | ext_data/mb2/beautize.py:36-49 | a converted line has no trailing whitespace, and it is empty exactly when the input line is blank |
| Beautize.TabLedLineKept | ext_data/mb2/beautize.py:39-49 | a line indented with a tab only loses its trailing whitespace |
| Beautize.NegativeWidthDropsIndent | ext_data/mb2/beautize.py:43-49 | with a negative width the leading spaces are simply dropped |
| Beautize.RepeatCons | ext_data/mb2/beautize.py:49 | a run of repeated characters splits into its first character and the rest |
| Beautize.IndentOfSpaces | ext_data/mb2/beautize.py:49 | spaces add one column each to the indentation |
| Beautize.IndentOfTabs | ext_data/mb2/beautize.py:49 | tabs add `tab_width` columns each |
| Beautize.LeadingSplit | ext_data/mb2/beautize.py:39-48 | a line is its leading spaces followed by `line[first_char_index:]` |
| Beautize.IndentWidthKept | ext_data/mb2/beautize.py:36-49 | with a positive width, conversion keeps the indentation's width in columns and the code after it |
| Beautize.UnindentedSettled | ext_data/mb2/beautize.py:36-49 | a trimmed line with no leading space is written back as it was |
| Beautize.ShortIndentSettled | ext_data/mb2/beautize.py:43-49 | fewer leading spaces than the width stay as spaces |
| Beautize.LeadingOfIndent | ext_data/mb2/beautize.py:39-48 | `m` spaces before code that does not start with a space are counted as `m`, and the code is what follows |
| Beautize.ConvertSettled | ext_data/mb2/beautize.py:36-49 | converting a written line again gives the same line |
| Beautize.WrittenLines | ext_data/mb2/beautize.py:80-84 | every written line ends with a line feed and has no whitespace before it |
| Beautize.EmptyLineSettled | ext_data/mb2/beautize.py:36-49 | a written empty line converts back to the empty line |
| Beautize.SecondRunNoChange | ext_data/mb2/beautize.py:28-87 | running the script on its own output, with the same options, writes the same lines |
| BatchRename.LastDot | ext_data/mb2/batchrename.py:41 | the index found holds a `.` with no `.` after it; none is found only when the name has no `.` |
| BatchRename.SplitExt | ext_data/mb2/batchrename.py:41 | `os.path.splitext` gives a base and an extension that together are the name |
| BatchRename.LastDotAt | ext_data/mb2/batchrename.py:41 | a `.` with no `.` after it is the last dot |
| BatchRename.SelectedExtension | ext_data/mb2/batchrename.py:38-41 | for a name ending in `.mbch`, the extension is `.mbch` unless only dots come before it, as with `.mbch` itself, which has no extension |
| BatchRename.JoinSplits | ext_data/mb2/batchrename.py:50 | splitting `base + ext` gives back `base` and `ext` |
| BatchRename.TargetSpec | ext_data/mb2/batchrename.py:43-49 | the clean name strips one leading `test_`; the target of a target is itself |
| BatchRename.RenameIffUnprefixed | ext_data/mb2/batchrename.py:79-83 | a file is moved exactly when its base name does not start with `test_` |
| BatchRename.SubSkips | ext_data/mb2/batchrename.py:71-72 | `re.sub` copies the text where the pattern does not match |
| BatchRename.NoMatchUnchanged | ext_data/mb2/batchrename.py:71-72 | content with no match of `\b(?<!test_)name\b` is unchanged |
| BatchRename.FirstMatchReplaced | ext_data/mb2/batchrename.py:71-72 | the text before the first match is copied, the match becomes the target, and the scan resumes after the match |
| BatchRename.WordRun | ext_data/mb2/batchrename.py:71 | the word run from a word character is within the text and is not empty |
| BatchRename.WordRunSpec | ext_data/mb2/batchrename.py:71 | the run is all word characters, and ends at the text's end or at a non-word character |
| BatchRename.WordRunEndsAt | ext_data/mb2/batchrename.py:71 | a maximal stretch of word characters is the run |
| BatchRename.NoMatchInRun | ext_data/mb2/batchrename.py:71 | inside a word that is not the name, the pattern matches nowhere |
| BatchRename.NotLiteralInRun | ext_data/mb2/batchrename.py:71 | a word that is not the name does not hold the name followed by `\b` at its start |
| BatchRename.RunIsMatch | ext_data/mb2/batchrename.py:71 | a word equal to a word-character name matches the pattern |
| BatchRename.TokenSubStep | ext_data/mb2/batchrename.py:71-72 | the word-by-word reference handles a whole word at a time |
| BatchRename.SubCopiesNonWord | ext_data/mb2/batchrename.py:71-72 | a non-word character is copied |
| BatchRename.SubTakesRun | ext_data/mb2/batchrename.py:71-72 | a whole word is replaced when it is the name, and copied otherwise |
| BatchRename.SubAtRun | ext_data/mb2/batchrename.py:71-72 | a word equal to the name becomes the target |
| BatchRename.SubPastRun | ext_data/mb2/batchrename.py:71-72 | any other word is copied |
| BatchRename.SubIsTokenSub | ext_data/mb2/batchrename.py:71-72 | from a word start, `re.sub` equals the word-by-word reference |
| BatchRename.NonWordJoin | ext_data/mb2/batchrename.py:71-72 | the equality with the reference extends over a non-word character |
| BatchRename.RunJoin | ext_data/mb2/batchrename.py:71-72 | the equality with the reference extends over a whole word |
| BatchRename.SubWholeIsTokenSub | ext_data/mb2/batchrename.py:71-72 | for a word-character name, the guarded `re.sub` replaces exactly the whole words equal to the name |
| BatchRename.TokenSubLeads | ext_data/mb2/batchrename.py:71-72 | the reference keeps a leading non-word character |
| BatchRename.TokenSubIdempotent | ext_data/mb2/batchrename.py:71-72 | with a word target, replacing a second time changes nothing |
| BatchRename.SubIdempotent | ext_data/mb2/batchrename.py:71-72 | `re.sub` with the same name and a word target is idempotent |
| BatchRename.PrefixedWordKept | ext_data/mb2/batchrename.py:68-72 | `test_name` is kept by the look-behind, and a bare `name` becomes `test_name` |
| BatchRename.PrefixedNameSettled | ext_data/mb2/batchrename.py:68-72 | renaming a file's content a second time changes nothing: no `test_test_` appears |
| BatchRename.ChainIsWord | ext_data/mb2/batchrename.py:172-174 | a word stays a non-empty word through the map's entries |
| BatchRename.ChainOfNonKey | ext_data/mb2/batchrename.py:172-174 | a word that is no clean name is left alone |
| BatchRename.ChainResult | ext_data/mb2/batchrename.py:172-174 | a word ends up unchanged or as one of the map's targets |
| BatchRename.ChainIdempotent | ext_data/mb2/batchrename.py:172-174 | when no target is also a clean name, the entries applied again change nothing |
| BatchRename.ChainedEntries | ext_data/mb2/batchrename.py:172-174 | the entries apply in turn: with `a.mbch` and `test_test_a.mbch` in the map, `a` becomes `test_test_a` |
| BatchRename.TokenMapLeads | ext_data/mb2/batchrename.py:172-174 | the several-entry reference keeps a leading non-word character |
| BatchRename.TokenMapEmpty | ext_data/mb2/batchrename.py:172-174 | an empty map changes nothing |
| BatchRename.TokenSubOfPiece | ext_data/mb2/batchrename.py:71-72 | a word followed by a non-word character is replaced as a whole |
| BatchRename.TokenMapStep | ext_data/mb2/batchrename.py:172-174 | one more entry applied to the reference's result is the reference with that entry appended |
| BatchRename.ApplyNamesIsTokenMap | ext_data/mb2/batchrename.py:164-174 | the `re.sub` calls in map order equal the word-by-word chain of renames |
| BatchRename.WordPairsPrefix | ext_data/mb2/batchrename.py:172 | the map without its last entry still pairs words |
| BatchRename.TokenMapIdempotent | ext_data/mb2/batchrename.py:172-174 | the reference is idempotent when no target is also a clean name |
| BatchRename.ApplyNamesIdempotent | ext_data/mb2/batchrename.py:164-174 | rewriting a `.mbtc` file's content twice gives what rewriting once gives, when no target is a clean name |
| BatchRename.PlanFor | ext_data/mb2/batchrename.py:38-52 | the planned file stays in its directory, and its target is `test_` plus the clean base name |
| BatchRename.DecisionSpec | ext_data/mb2/batchrename.py:79-90 | the file is moved exactly when its base name lacks `test_`; either way the content ends up at `dir/test_<clean><ext>` |
| BatchRename.NewNameKeepsExtension | ext_data/mb2/batchrename.py:50 | the new name keeps the old extension |
| BatchRename.PlanSettled | ext_data/mb2/batchrename.py:79-90 | the renamed file plans to stay where it is and is overwritten in place |
| BatchRename.KeyIndex | ext_data/mb2/batchrename.py:92 | the index found holds the key; nothing is found only when the key is absent |
| BatchRename.StoreSpec | ext_data/mb2/batchrename.py:92 | the dictionary store maps the key to the value, keeps keys distinct, keeps other entries in place, and adds a new key only at the end |
| BatchRename.NameMapSpec | ext_data/mb2/batchrename.py:57-101 | the map pairs each clean name with `test_` + itself, once, for exactly the clean names of the `.mbch` files processed without error |
| BatchRename.SucceedsAsLast | ext_data/mb2/batchrename.py:57-101 | a clean name is processed in a list of files when it is processed before the last one or by the last one |
| BatchRename.PrefixedWord | ext_data/mb2/batchrename.py:49 | `test_` plus a word is a word |
| BatchRename.NameMapPlain | ext_data/mb2/batchrename.py:92 | the map holds only plain clean names when every processed `.mbch` file has one |
| BatchRename.TestRewriteSettled | ext_data/mb2/batchrename.py:164-174 | with plain clean names, rewriting a `.mbtc` file's content a second time changes nothing |
| BatchRename.RenameCharacterFiles | ext_data/mb2/batchrename.py:57-101 | phase 1 writes each `.mbch` file processed without error, builds the map, and counts those files |
| BatchRename.RewriteTestContent | ext_data/mb2/batchrename.py:164-174 | the own-name substitution, then one substitution per map entry in order |
| BatchRename.RenameTestFiles | ext_data/mb2/batchrename.py:154-201 | phase 2 writes each `.mbtc` file processed without error, and counts them |
| BatchRename.ProcessFiles | ext_data/mb2/batchrename.py:31-216 | the whole run: phase 1, the map handed over (empty when it could not be saved), phase 2, and the processed counts |
| Pbadjust.DivMonotone | ext_data/mb2/pbadjust.py:95 | the group number `index // block_size` does not decrease as the index grows |
| Pbadjust.MulMonotone | ext_data/mb2/pbadjust.py:96 | the offset `group_number * gap` does not decrease as the group grows |
| Pbadjust.DivOfBlock | ext_data/mb2/pbadjust.py:95 | index `k * b + r` with `r < b` is in group `k` |
| Pbadjust.NewNumberIncreasing | ext_data/mb2/pbadjust.py:92-97 | new numbers are never below the index and strictly increase with it, whatever the directive set, so triplets never collide |
| Pbadjust.NewNumberOfGroup | ext_data/mb2/pbadjust.py:92-97 | item `r` of group `k` gets number `k * (block_size + gap) + r`: groups start at multiples of `block_size + gap` |
| Pbadjust.NumberingExamples | ext_data/mb2/pbadjust.py:72-86 | the documented values: 11 stays 11 and 12 becomes 15 by default; with `//PBADJUST 13:1`, 13→13, 14→15, 27→28, 28→30, 41→43, 42→45 |
| Pbadjust.CleanLine | ext_data/mb2/pbadjust.py:145 | `rstrip('\n\r')` keeps a prefix of the line that does not end in a line break |
| Pbadjust.KindAt | ext_data/mb2/pbadjust.py:113 | a type name found is spelled there |
| Pbadjust.FirstAtt | ext_data/mb2/pbadjust.py:113 | the lazy `.*?` stops at the first `c_att_<type>_<digit>`, and none starts before it |
| Pbadjust.DigitsSlice | ext_data/mb2/pbadjust.py:113 | a digit run is all digits |
| Pbadjust.AttDigits | ext_data/mb2/pbadjust.py:113 | at a triplet tag the type name and at least one digit follow |
| Pbadjust.LineMatch | ext_data/mb2/pbadjust.py:113 | a matched line has a non-empty all-digit number |
| Pbadjust.AttIn | ext_data/mb2/pbadjust.py:113 | the pattern on a cleaned line yields a non-empty all-digit number |
| Pbadjust.Parse | ext_data/mb2/pbadjust.py:142-147 | one parsed line per line read, each keeping its text |
| Pbadjust.ParseMatches | ext_data/mb2/pbadjust.py:142-175 | the parsed lines are the lines read with both patterns applied |
| Pbadjust.ParseAt | ext_data/mb2/pbadjust.py:143-147 | line `k` is parsed on its own |
| Pbadjust.Triplet | ext_data/mb2/pbadjust.py:186-210 | the inner loop writes at most three lines, at most as many as remain, and at least one |
| Pbadjust.Advance | ext_data/mb2/pbadjust.py:147-225 | one turn of the outer loop writes at least one line, and no more than remain |
| Pbadjust.PrependTwice | ext_data/mb2/pbadjust.py:164-224 | appending two pieces in turn is appending both at once |
| Pbadjust.SpellsAgree | ext_data/mb2/pbadjust.py:113 | texts that agree on a stretch spell the same literal there |
| Pbadjust.AttAtAgree | ext_data/mb2/pbadjust.py:113 | texts that agree on a tag and on whether a digit follows agree on the match there |
| Pbadjust.FirstAttIs | ext_data/mb2/pbadjust.py:113 | a tag with no tag before it is the first |
| Pbadjust.CleanKeeps | ext_data/mb2/pbadjust.py:200 | a rebuilt line cleans back to its text without the line feed |
| Pbadjust.MatchOf | ext_data/mb2/pbadjust.py:113 | the groups of a match, given the first tag and the digit run |
| Pbadjust.AttOf | ext_data/mb2/pbadjust.py:113 | the groups of a match on a cleaned line |
| Pbadjust.Pieces | ext_data/mb2/pbadjust.py:200 | the parts of a rebuilt line are where they belong |
| Pbadjust.RebuiltClean | ext_data/mb2/pbadjust.py:200 | a rebuilt line cleans back to its text |
| Pbadjust.RebuiltFirst | ext_data/mb2/pbadjust.py:200 | the rebuilt line's first tag is where the old line's was |
| Pbadjust.RebuiltDigits | ext_data/mb2/pbadjust.py:200 | the rebuilt line's digit run is exactly the new number |
| Pbadjust.MatchedHead | ext_data/mb2/pbadjust.py:196-200 | `leading_part + 'c_att_' + type + '_'` is the text up to the number |
| Pbadjust.RebuiltMatch | ext_data/mb2/pbadjust.py:196-200 | a rebuilt line matches with the same leading part, type and rest, and the new digits |
| Pbadjust.RebuiltPieces | ext_data/mb2/pbadjust.py:196-200 | the same, for the parts named separately |
| Pbadjust.MatchedLine | ext_data/mb2/pbadjust.py:113 | a matched line has no line feed once cleaned, and it has a tag |
| Pbadjust.RewriteParts | ext_data/mb2/pbadjust.py:196-200 | a cleaned line rebuilt around new digits matches with those digits |
| Pbadjust.MatchedParts | ext_data/mb2/pbadjust.py:113 | a matched line's groups come from its cleaned text, its first `c_att_` tag and the digit run after it |
| Pbadjust.RewriteDigits | ext_data/mb2/pbadjust.py:196-200 | a matched line rebuilt around any digit string matches again, with only the digits changed |
| Pbadjust.RewriteRoundTrip | ext_data/mb2/pbadjust.py:196-200 | a renumbered line matches again with the same leading part, type and rest, and the new number as its digits |
| Pbadjust.SettingOf | ext_data/mb2/pbadjust.py:151-152 | the `B:G` part read as two decimal numbers |
| Pbadjust.HeadOf | ext_data/mb2/pbadjust.py:125 | after the leading whitespace, `//PBADJUST` and the whitespace after it, the settings are read |
| Pbadjust.LaidOut | ext_data/mb2/pbadjust.py:125 | a directive written out part by part has that layout |
| Pbadjust.SpaceRunOver | ext_data/mb2/pbadjust.py:125 | a greedy `\s*` takes exactly a whitespace stretch followed by a non-space |
| Pbadjust.DigitRunOver | ext_data/mb2/pbadjust.py:125 | a greedy `\d+` takes exactly a digit stretch followed by a non-digit |
| Pbadjust.SpellsSlice | ext_data/mb2/pbadjust.py:125 | a slice equal to a literal spells it |
| Pbadjust.LaidHead | ext_data/mb2/pbadjust.py:125 | the whitespace runs and the tag of a laid-out directive are read as laid out |
| Pbadjust.LaidNumbers | ext_data/mb2/pbadjust.py:125 | the two numbers of a laid-out directive are read as laid out |
| Pbadjust.LaidSetting | ext_data/mb2/pbadjust.py:151-152 | the settings of a laid-out directive are its two numbers |
| Pbadjust.LaidLast | ext_data/mb2/pbadjust.py:145 | a laid-out directive does not end in a line break |
| Pbadjust.ReadBack | ext_data/mb2/pbadjust.py:125 | a cleaned directive with a line feed added is read as before |
| Pbadjust.LaidReads | ext_data/mb2/pbadjust.py:145-152 | a laid-out directive line is read back as its two numbers |
| Pbadjust.DirectiveRoundTrip | ext_data/mb2/pbadjust.py:116-156 | `<ws>//PBADJUST<ws>B:G<tail>` is read back as block size index `B` and gap `G`, for any whitespace and any tail that does not continue the gap's digits |
| Pbadjust.ShapedCons | ext_data/mb2/pbadjust.py:186-200 | a rebuilt matching line before a shaped block gives a shaped block |
| Pbadjust.TripletShape | ext_data/mb2/pbadjust.py:186-210 | the inner loop rebuilds each matching line with the number and stops after three lines, at the end of the file, or after copying the first line that does not match |
| Pbadjust.MoveRenders | ext_data/mb2/pbadjust.py:147-225 | each line one turn writes is its input line, or that line rebuilt with some number |
| Pbadjust.ScanAligned | ext_data/mb2/pbadjust.py:141-225 | the loop writes one line per input line, each a copy or a renumbering of its line; a line the triplet pattern does not match is copied (the number given: `Pbadjust.ScanTriplets`) |
| Pbadjust.ScanSettings | ext_data/mb2/pbadjust.py:147-156 | the block size and gap left at the end are the starting ones or those of some directive in the file |
| Pbadjust.NoDirectiveKeepsSettings | ext_data/mb2/pbadjust.py:147-156 | a file with no directive leaves the block size and gap as they were |
| Pbadjust.FileAligned | ext_data/mb2/pbadjust.py:133-228 | the file written has one line per line read, each the line itself or, when it matches the triplet pattern, that line rebuilt with some number (which number: `Pbadjust.FileTriplets`) |
| Pbadjust.ScanDirective | ext_data/mb2/pbadjust.py:146-164 | a directive line is copied, the block size becomes `B + 1`, the gap `G`, and the counter restarts at 0 |
| Pbadjust.ScanCopied | ext_data/mb2/pbadjust.py:215-226 | a line that is neither a directive nor a `skill` line (a stray `names`/`ranks` line included) is copied and the counter does not move |
| Pbadjust.ScanBrokenTriplet | ext_data/mb2/pbadjust.py:177-214 | a `skill` line followed by a line that does not match is rebuilt with `new_num`, the second line is copied, the scan goes on after it and the counter moves by one |
| Pbadjust.ScanLateBreak | ext_data/mb2/pbadjust.py:177-214 | a `skill` line and a matching line followed by one that does not match: two lines rebuilt with `new_num`, the third copied, the scan goes on after it and the counter moves by one |
| Pbadjust.BrokenAtThird | ext_data/mb2/pbadjust.py:186-207 | the inner loop rebuilds two matching lines and copies a third that does not match |
| Pbadjust.ScanFullTriplet | ext_data/mb2/pbadjust.py:177-214 | a complete triplet gets three lines rebuilt with `calculate_new_block_number(global_item_counter)`, and the counter moves by one |
| Pbadjust.FullTriplet | ext_data/mb2/pbadjust.py:186-200 | the inner loop rebuilds all three lines of a complete triplet with the same number |
| Pbadjust.ScanTripletsShape | ext_data/mb2/pbadjust.py:177-214 | a run of complete triplets keeps its length and leaves the block size and gap as they were |
| Pbadjust.FirstTriplet | ext_data/mb2/pbadjust.py:177-214 | the first triplet of a run gets the number of the current counter |
| Pbadjust.LaterTriplet | ext_data/mb2/pbadjust.py:211-214 | after the first triplet of a run, the rest is scanned with the counter moved by one |
| Pbadjust.TripletNumbered | ext_data/mb2/pbadjust.py:177-214 | line `r` of triplet `q` in a run gets the number of counter `t = counter + q` |
| Pbadjust.ScanTriplets | ext_data/mb2/pbadjust.py:177-214 | in a directive-free run of complete triplets, line `3q + r` is rebuilt with `calculate_new_block_number(counter + q)` |
| Pbadjust.FileTriplets | ext_data/mb2/pbadjust.py:131-214 | in a file that is a run of complete triplets, line `3q + r` is rebuilt with the new number of item `q` |
| Pbadjust.ScanAdvances | ext_data/mb2/pbadjust.py:211-216 | moving `i` by `j + 1` after a turn leaves the rest of the loop to the lines after it, also when the file ends inside a triplet |
| Pbadjust.TripletTurn | ext_data/mb2/pbadjust.py:186-210 | one turn of `for j in range(3)`: it stops at the end of the file, copies and stops at a line that does not match, or rebuilds the line and goes on |
| Pbadjust.AppendAssoc | ext_data/mb2/pbadjust.py:200 | appending is associative |
| Pbadjust.RenumberTriplet | ext_data/mb2/pbadjust.py:182-214 | the inner loop writes `Triplet(lines from i, new_num, 3)` and moves `i` by `j + 1`: one more than the lines taken when the file ends inside the triplet |
| Pbadjust.Step | ext_data/mb2/pbadjust.py:143-225 | one turn of the outer loop: a directive sets the block size to `B + 1` and the gap to `G` and resets the counter; a `skill` line starts a triplet and bumps the counter; anything else is copied |
| Pbadjust.RunFiles | ext_data/mb2/pbadjust.py:253-263 | one written file per file processed |
| Pbadjust.RunFilesAppend | ext_data/mb2/pbadjust.py:253-263 | processing `a + b` is processing `a`, then `b` from the block size and gap `a` leaves |
| Pbadjust.RunFilesFrom | ext_data/mb2/pbadjust.py:253-263 | the run from file `i` processes that file, then the rest from the block size and gap it leaves |
| Pbadjust.JoinedCons | ext_data/mb2/pbadjust.py:253-263 | adding one more written file to those written so far does not change the whole run |
| Pbadjust.NoDirectivesParsed | ext_data/mb2/pbadjust.py:147 | with no directive line, no parsed line is a directive |
| Pbadjust.FilesIndependent | ext_data/mb2/pbadjust.py:253-263 | without directives, every file is renumbered as if it were processed alone, and the settings stay as they were |
| Pbadjust.Renumberer.constructor | ext_data/mb2/pbadjust.py:15-16 | the block size starts at 12 and the gap at 3 |
| Pbadjust.Renumberer.ProcessFile | ext_data/mb2/pbadjust.py:131-228 | `process_mbch_file` writes `Scan(Parse(lines), 0, …)` from the current globals, and leaves the globals that scan ends with; an empty file is left alone |
| Pbadjust.Renumberer.ProcessFiles | ext_data/mb2/pbadjust.py:253-263 | `main`'s loop writes `RunFiles(files, …)`: the globals carry from each file to the next |
| TwoTabs.TabRun | ext_data/mb2/2tabsto1.py:35 | the run of tabs at the front is all tabs and ends at a non-tab or at the end |
| TwoTabs.DropTabs | ext_data/mb2/2tabsto1.py:35 | the text with its tabs removed holds no tab |
| TwoTabs.TabCons | ext_data/mb2/2tabsto1.py:35 | a tab before a run of `m` tabs is a run of `m + 1` |
| TwoTabs.SingleTab | ext_data/mb2/2tabsto1.py:35 | a lone tab is kept |
| TwoTabs.DropTabsOfTabs | ext_data/mb2/2tabsto1.py:35 | a run of tabs holds no other text |
| ResetDesc.DescMatch | ext_data/mb2/resetdesc.py:23 | a match is at least as long as `description ""` and lies within the text |
| ResetDesc.SpanAtStart | ext_data/mb2/resetdesc.py:46 | a match at `i` is replaced, and the scan resumes after it |
| ResetDesc.NoSpanAt | ext_data/mb2/resetdesc.py:46 | with no match at `k`, the character there is copied |
| ResetDesc.ConsSlice | ext_data/mb2/resetdesc.py:46 | copying one character, then a stretch, is copying the longer stretch |
| BlockIndent.DropTab | ext_data/mb2/blockindentstrip.py:32-41 | `line[1:]` when the line starts with a tab, the line itself otherwise |
| BlockIndent.Stripped | ext_data/mb2/blockindentstrip.py:22-46 | one written line per line read |
| EmptyPbui.MiddleOccurs | ext_data/mb2/emptypbui.py:74-79 | a part of a concatenation occurs where it was placed |
| EmptyPbui.WindowChar | ext_data/mb2/emptypbui.py:83 | a copy of a stretch has the same characters |
| EmptyPbui.SliceOfWindow | ext_data/mb2/emptypbui.py:83 | a copy of a stretch has the same slices |
| InvalidRemove.Sentinel | ext_data/mb2/invalidremove.py:23-25 | each sentinel value (`MB_ATT_INVALID`, `""`, `-1`) is not empty and starts with a non-space |
| InvalidRemove.Prefix | ext_data/mb2/invalidremove.py:23-25 | each key prefix is twelve characters long and starts with `c_att_` |
| InvalidRemove.RunParts | ext_data/mb2/invalidremove.py:23-25 | the runs the matcher measures are digits, whitespace, and whitespace to the end |
| InvalidRemove.ShapedIntro | ext_data/mb2/invalidremove.py:23-25 | a line given by its parts has the pattern's shape |
| InvalidRemove.RunIsDigits | ext_data/mb2/invalidremove.py:23 | a `\d+` run is all digits |
| InvalidRemove.RunIsSpaces | ext_data/mb2/invalidremove.py:23 | a `\s+` run is all whitespace |
| InvalidRemove.TailIsSpaces | ext_data/mb2/invalidremove.py:23 | a `\s*$` tail is all whitespace |
| InvalidRemove.ReassembleLiterals | ext_data/mb2/invalidremove.py:23-25 | a line is the concatenation of its parts |
| InvalidRemove.Reassemble | ext_data/mb2/invalidremove.py:23-25 | the same, with the literals found by slicing |
| InvalidRemove.KeyValueIndexParts | ext_data/mb2/invalidremove.py:23-25 | a match has a non-empty digit run, a non-empty whitespace run, the value, and only whitespace after it |
| InvalidRemove.SubseqSkip | ext_data/mb2/invalidremove.py:66 | a subsequence of the lines after a skip is a subsequence of all lines |
| InvalidRemove.CountCons | ext_data/mb2/invalidremove.py:70 | keeping a line adds one to its count |
| InvalidRemove.CountAfterThree | ext_data/mb2/invalidremove.py:66 | skipping three lines that differ from `l` keeps the count of `l` |
| InvalidRemove.KeptDropAt | ext_data/mb2/invalidremove.py:61-67 | a triplet at `i` is skipped |
| InvalidRemove.KeptKeepAt | ext_data/mb2/invalidremove.py:69-71 | otherwise line `i` is kept |
| Text.LiteralAt | ext_data/mb2/batchrename.py:71 | a literal found at `i` fits within the text |
| Text.Count | ext_data/mb2/respawnTimeAdjust.py:74-75 | `line.count(c)` is at most the length, and zero exactly when `c` does not occur |
| Text.Repeat | ext_data/mb2/beautize.py:49 | `c * n` has `n` characters, none for a negative `n`, all equal to `c` |
| Text.SpaceRun | ext_data/mb2/invalidremove.py:23 | a whitespace run lies within the text |
| Text.SpaceRunSpec | ext_data/mb2/invalidremove.py:23 | a greedy `\s*` takes only whitespace and stops at a non-space or at the end |
| Text.DigitRun | ext_data/mb2/invalidremove.py:23 | a digit run lies within the text |
| Text.DigitRunSpec | ext_data/mb2/invalidremove.py:23 | a greedy `\d*` takes only digits and stops at a non-digit or at the end |
| Text.RStrip | ext_data/mb2/beautize.py:36 | `rstrip()` keeps a prefix |
| Text.RStripSpec | ext_data/mb2/beautize.py:36 | `rstrip()` removes only whitespace, and leaves no trailing whitespace |
| Text.LStrip | ext_data/mb2/blockindentstrip.py:23 | `lstrip()` keeps a suffix |
| Text.LStripSpec | ext_data/mb2/blockindentstrip.py:23 | `lstrip()` removes only whitespace, and leaves no leading whitespace |
| Text.NextIndex | ext_data/mb2/resetdesc.py:23 | the index found is at or after the start and holds the character |
| Text.NextIndexSpec | ext_data/mb2/resetdesc.py:23 | the character does not occur before the index found, and not at all when nothing is found |
| Text.NextIndexFinds | ext_data/mb2/resetdesc.py:23 | the first occurrence is the index found |
| Text.DigitChar | ext_data/mb2/pbadjust.py:200 | a decimal digit's character is a digit |
| Text.NatToString | ext_data/mb2/pbadjust.py:200 | `str(n)` is a non-empty digit string with no leading zero |
| Text.NatToStringRoundTrip | ext_data/mb2/pbadjust.py:151-152 | `int(str(n)) == n` |
| Text.SpaceRunEndsAt | ext_data/mb2/invalidremove.py:23 | a whitespace stretch ended by a non-space is the run |
| Text.DigitRunEndsAt | ext_data/mb2/invalidremove.py:23 | a digit stretch ended by a non-digit or the end is the run |
| Text.SpaceRunToEnd | ext_data/mb2/invalidremove.py:23 | a whitespace tail is the run |
| Text.RStripOf | ext_data/mb2/beautize.py:36 | `rstrip()` of text plus trailing whitespace is the text |
| Text.LStripOf | ext_data/mb2/blockindentstrip.py:23 | `lstrip()` of leading whitespace plus text is the text |
| Text.StripOf | ext_data/mb2/respawnTimeAdjust.py:43 | `strip()` removes exactly the whitespace around the core |
| Text.StripCore | ext_data/mb2/blockindentstrip.py:23-26 | the first character of `strip()` is the first non-space character |
| Text.StripNonBlank | ext_data/mb2/blockindentstrip.py:23-26 | a line with a non-space strips to text starting with its first non-space |
| Text.StripBlank | ext_data/mb2/beautize.py:61 | an all-space line strips to nothing |
| Text.StripHead | ext_data/mb2/blockindentstrip.py:23-30 | `strip()` is empty exactly for an all-space line, and otherwise starts with the first non-space |
| Text.LeadsWithIsStripStart | ext_data/mb2/blockindentstrip.py:23-30 | `line.strip().startswith(c)` holds exactly when the first non-space character is `c` |
| Text.LiteralAtIsOccurs | ext_data/mb2/batchrename.py:71 | comparing character by character is comparing the slice |
| Text.ContainsStep | ext_data/mb2/emptypbui.py:42 | `pat in s` holds when `s` starts with it or its tail contains it |
| Text.ContainsTrans | ext_data/mb2/emptypbui.py:42 | containment is transitive |
| Text.ReplaceAllStepMatch | ext_data/mb2/2tabsto1.py:35 | `replace` writes the replacement for an occurrence at the front and goes on after it |
| Text.ReplaceAllStepSkip | ext_data/mb2/2tabsto1.py:35 | `replace` copies a character where no occurrence starts |
| Text.ReplaceAllAbsent | ext_data/mb2/emptypbui.py:83 | `replace` changes nothing when the pattern does not occur |
| Text.ReplaceAllPlacesReplacement | ext_data/mb2/emptypbui.py:83 | when the pattern occurs, the result holds the replacement |
| Text.ReplaceAllCopies | ext_data/mb2/emptypbui.py:83 | `n` back-to-back copies of the pattern become `n` copies of the replacement |
| Text.ReplaceAllShrinks | ext_data/mb2/2tabsto1.py:35 | a replacement no longer than the pattern never lengthens the text |
| Text.BlankIsStripEmpty | ext_data/mb2/beautize.py:56-61 | `not line.strip()` holds exactly for an all-space line |
| Text.ReplaceAllSkips | ext_data/mb2/emptypbui.py:83 | `replace` copies a stretch where no occurrence starts |
| Text.SliceCons | ext_data/mb2/emptypbui.py:83 | one copied character before a copied stretch is the longer stretch |
| Text.ReplaceAllFirst | ext_data/mb2/emptypbui.py:83 | `replace` copies the text before the first occurrence, writes the replacement, and goes on after it |

## Left out

- File system access is not modelled: `os.walk`, `glob.glob`, `os.path.exists`/`isfile`/`isdir`, opening, reading and writing files, the `.mbch`/`.mbtc` name filters and the walk order. Each script is modelled on the text or lines it reads, and it yields the text or lines it writes.
- `print` messages, counters used only for messages, and `input()` prompts are left out, because they do not change any file.
- Python's universal-newline translation on reading is not modelled. Lines are taken as `readlines()` returns them, and a file's content as `read()` returns it.
- Character classes are modelled on ASCII. `\s` and `str.strip()` use the ASCII whitespace Python recognises: space, `\t`–`\r` and `\x1c`–`\x1f`. `\d` is `0`–`9`, and `\w` is letters, digits and `_`. `re.IGNORECASE` folds only `A`–`Z`. Unicode whitespace, digits, letters and case folding (for example `ſ` matching `s`) are not modelled.
- Exceptions from I/O and decoding are not modelled for the scripts that catch them per file and write nothing on error. `batchrename.py` is the exception: there a per-file success flag (`Source.ok`) decides whether the file counts and enters the map.
- `pbadjust.py`: `load_configuration` and `config.ini` are left out. The `CONFIGURED_BLOCK_SIZE` they set is never read by the numbering. `main`'s command-line patterns are left out: files are given in the order they are processed.
- `pbadjust.py:167-172`, the `ValueError` branch of the directive, is not modelled. It runs when one of the two numbers is longer than CPython's integer-string conversion limit (4300 digits by default since 3.11 and the 3.7-3.10 security releases that added it). The script then copies the line and keeps the block size, the gap and the counter. The model (`Pbadjust.ScanDirective`, `Pbadjust.Step`) applies such a directive like any other.
- `pbadjust.py:125`, the optional `(?::\d+)?` group, is not modelled separately. The `.*$` after it already accepts whatever it would match, so the match and its groups are the same.
- `batchrename.py`: temporary files and `os.remove`/`os.rename` are left out. The model records where each file's new content ends up and whether it was moved. A rename onto an existing file is not modelled.
- `batchrename.py:103-129`: the JSON map file is left out. The map is passed on directly, and a failed save is the `mapSaved = false` case, which leaves an empty map. A stale map file left by an earlier run, which the script would load, is not modelled.
- `BatchRename.SubWholeIsTokenSub`: states the word-by-word reading of `re.sub` only for names made of word characters. Names with other characters are still substituted by `Sub`, but they have no declarative reading.
- BatchRename.Sub: inserts the new name literally. `re.sub` reads its replacement as a template, so a backslash in a new name is processed: `\n` becomes a line feed, and a group reference such as `\1` or an unknown letter escape such as `\d` raises `re.error`, which the per-file `except Exception` catches, leaving that file unrenamed and out of the map. Names containing a backslash are therefore not modelled faithfully.
- Respawn.SecondRunNoChange: is about line lists. Writing with `writelines` and reading back with `readlines` gives the same list only when the last line ends in a line feed. When the original last line has no line feed and the setting is appended, the two are written as one line, and a second run appends the setting again (`Respawn.GluedSettingAppended`). The same holds for `Respawn.SecondRunAfterInsert`.
- `beautize.py`: `argparse`, the ignore list, `load_ignore_list` and skipping the script's own file are left out. So is the choice between one file and a directory. `beautify_file` is modelled for any integer `tab_width`, zero and negative widths included.
- `emptypbui.py`, `respawnTimeAdjust.py`, `invalidremove.py`, `resetdesc.py`, `blockindentstrip.py`, `2tabsto1.py`: the directory drivers around the per-file edit are left out. `2tabsto1.py:48`, the `input()` that asks for the directory, is left out too.
