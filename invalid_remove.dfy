/** The invalid-triplet deleter of `invalidremove.py`: three consecutive lines
    `c_att_skill_N MB_ATT_INVALID`, `c_att_names_N ""`, `c_att_ranks_N -1`
    with the same index text N are dropped; every other line is kept. */
module InvalidRemove {
  import opened Text

  /** The three lines of an attribute triplet. */
  datatype Kind = Skill | Names | Ranks

  function KindName(k: Kind): string {
    match k
    case Skill => "skill"
    case Names => "names"
    case Ranks => "ranks"
  }

  /** The value a line of an unset triplet holds. */
  function Sentinel(k: Kind): (v: string)
    ensures v != [] && !IsSpace(v[0])
  {
    match k
    case Skill => "MB_ATT_INVALID"
    case Names => "\"\""
    case Ranks => "-1"
  }

  /** `c_att_<kind>_`, the text the pattern starts with. */
  function Prefix(k: Kind): (p: string)
    ensures |p| == 12 && p[..6] == "c_att_"
  {
    "c_att_" + KindName(k) + "_"
  }

  /** The index captured by `<key>(\d+)\s+<value>\s*$` when it matches at
      the start of `line` (`re.match`), as a digit string. The digit run and
      the whitespace run are taken whole: neither can give back a character
      to what follows it, since the value starts with a non-space. */
  function KeyValueIndex(line: string, key: string, value: string): Option<string> {
    if !LiteralAt(line, key, 0) then None
    else
      var d := DigitRun(line, |key|);
      var w := SpaceRun(line, |key| + d);
      if d == 0 || w == 0 || !LiteralAt(line, value, |key| + d + w) then None
      else
        var e := |key| + d + w + |value|;
        if SpaceRun(line, e) != |line| - e then None
        else Some(line[|key|..|key| + d])
  }

  /** The pattern of one line of an unset triplet. */
  function SentinelIndex(line: string, k: Kind): Option<string> {
    KeyValueIndex(line, Prefix(k), Sentinel(k))
  }

  /** The line shape the pattern describes, with its parts named: the key,
      a digit string, whitespace, the value and optional whitespace. */
  predicate Shaped(line: string, key: string, value: string, num: string, ws: string, trail: string) {
    num != [] && AllDigits(num) && ws != [] && AllSpace(ws) && AllSpace(trail) &&
    line == key + num + ws + value + trail
  }

  /** Three unset lines with the same index text. */
  predicate InvalidTriplet(a: string, b: string, c: string) {
    var n := SentinelIndex(a, Skill);
    n.Some? && SentinelIndex(b, Names) == n && SentinelIndex(c, Ranks) == n
  }

  /** The scan for a given triplet test: a triplet at the front is dropped,
      otherwise the first line is kept and the scan goes on from the next. */
  function Scan(lines: seq<string>, isTriplet: (string, string, string) -> bool): seq<string>
    decreases |lines|
  {
    if lines == [] then []
    else if |lines| >= 3 && isTriplet(lines[0], lines[1], lines[2]) then Scan(lines[3..], isTriplet)
    else [lines[0]] + Scan(lines[1..], isTriplet)
  }

  /** The lines the script keeps. */
  function Kept(lines: seq<string>): seq<string> {
    Scan(lines, InvalidTriplet)
  }

  /** The test at index `i`: the skill pattern first, then the names and
      ranks patterns on the next two lines when they exist, with the same
      index text. */
  method TripletAt(lines: seq<string>, i: nat) returns (found: bool)
    requires i < |lines|
    ensures found == (i + 2 < |lines| && InvalidTriplet(lines[i], lines[i + 1], lines[i + 2]))
  {
    found := false;
    var matchSkill := SentinelIndex(lines[i], Skill);
    if matchSkill.Some? {
      var num := matchSkill.value;
      var matchNames := if i + 1 < |lines| then SentinelIndex(lines[i + 1], Names) else None;
      var matchRanks := if i + 2 < |lines| then SentinelIndex(lines[i + 2], Ranks) else None;
      found := matchNames == Some(num) && matchRanks == Some(num);
    }
  }

  /** The scan: the index moves on by three over an unset triplet and by one
      otherwise. */
  method RemoveInvalidTriplets(lines: seq<string>) returns (out: seq<string>)
    ensures out == Kept(lines)
  {
    out := [];
    var i := 0;
    while i < |lines|
      invariant i <= |lines|
      invariant out + Kept(lines[i..]) == Kept(lines)
      decreases |lines| - i
    {
      var found := TripletAt(lines, i);
      if found {
        KeptDropAt(lines, i);
        i := i + 3;
      } else {
        KeptKeepAt(lines, i);
        out := out + [lines[i]];
        i := i + 1;
      }
    }
  }

  // ---------------------------------------------------------------------------
  // The matcher against the shape

  /** Every reported index comes from a line of the described shape. */
  lemma KeyValueIndexSound(line: string, key: string, value: string)
    requires KeyValueIndex(line, key, value).Some?
    ensures exists ws, trail :: Shaped(line, key, value, KeyValueIndex(line, key, value).value, ws, trail)
  {
    KeyValueIndexParts(line, key, value);
    var d := DigitRun(line, |key|);
    var w := SpaceRun(line, |key| + d);
    ShapedFromRuns(line, key, value, d, w, KeyValueIndex(line, key, value).value);
  }

  /** A line that passes the matcher's tests has the described shape. */
  lemma ShapedFromRuns(line: string, key: string, value: string, d: nat, w: nat, num: string)
    requires LiteralAt(line, key, 0) && d == DigitRun(line, |key|) && d != 0
    requires w == SpaceRun(line, |key| + d) && w != 0 && LiteralAt(line, value, |key| + d + w)
    requires SpaceRun(line, |key| + d + w + |value|) == |line| - (|key| + d + w + |value|)
    requires num == line[|key|..|key| + d]
    ensures exists ws, trail :: Shaped(line, key, value, num, ws, trail)
  {
    RunParts(line, key, value, d, w);
    ShapedIntro(line, key, value, |key| + d, |key| + d + w);
  }

  /** The three runs the matcher measured, as digit and whitespace strings. */
  lemma RunParts(line: string, key: string, value: string, d: nat, w: nat)
    requires |key| <= |line| && d == DigitRun(line, |key|)
    requires w == SpaceRun(line, |key| + d) && |key| + d + w + |value| <= |line|
    requires SpaceRun(line, |key| + d + w + |value|) == |line| - (|key| + d + w + |value|)
    ensures AllDigits(line[|key|..|key| + d]) && AllSpace(line[|key| + d..|key| + d + w])
    ensures AllSpace(line[|key| + d + w + |value|..])
  {
    RunIsDigits(line, |key|, d);
    RunIsSpaces(line, |key| + d, w);
    TailIsSpaces(line, |key| + d + w + |value|);
  }

  /** The shape from its parts, cut at the positions where they end. */
  lemma ShapedIntro(line: string, key: string, value: string, i: nat, v: nat)
    requires LiteralAt(line, key, 0) && |key| < i < v && LiteralAt(line, value, v)
    requires AllDigits(line[|key|..i]) && AllSpace(line[i..v]) && AllSpace(line[v + |value|..])
    ensures Shaped(line, key, value, line[|key|..i], line[i..v], line[v + |value|..])
  {
    ReassembleLiterals(line, key, value, i, v);
  }

  /** The digit run is a digit string. */
  lemma RunIsDigits(line: string, n: nat, d: nat)
    requires n <= |line| && d == DigitRun(line, n)
    ensures AllDigits(line[n..n + d])
  {
    DigitRunSpec(line, n);
    var r := line[n..n + d];
    forall j | 0 <= j < |r|
      ensures IsDigit(r[j])
    {
      assert r[j] == line[n + j];
    }
  }

  /** The whitespace run is whitespace. */
  lemma RunIsSpaces(line: string, n: nat, w: nat)
    requires n <= |line| && w == SpaceRun(line, n)
    ensures AllSpace(line[n..n + w])
  {
    SpaceRunSpec(line, n);
    var r := line[n..n + w];
    forall j | 0 <= j < |r|
      ensures IsSpace(r[j])
    {
      assert r[j] == line[n + j];
    }
  }

  /** A whitespace run that reaches the end leaves only whitespace. */
  lemma TailIsSpaces(line: string, e: nat)
    requires e <= |line| && SpaceRun(line, e) == |line| - e
    ensures AllSpace(line[e..])
  {
    RunIsSpaces(line, e, |line| - e);
    assert line[e..] == line[e..e + (|line| - e)];
  }

  lemma ReassembleLiterals(line: string, key: string, value: string, i: nat, v: nat)
    requires LiteralAt(line, key, 0) && |key| <= i <= v && LiteralAt(line, value, v)
    ensures line == key + line[|key|..i] + line[i..v] + value + line[v + |value|..]
  {
    LiteralAtIsOccurs(line, key, 0);
    LiteralAtIsOccurs(line, value, v);
    Reassemble(line, key, value, i, v);
  }

  /** A string cut where a key and a value occur is the concatenation of
      its pieces. */
  lemma Reassemble(line: string, key: string, value: string, i: nat, v: nat)
    requires OccursAt(line, key, 0) && |key| <= i <= v && OccursAt(line, value, v)
    ensures line == key + line[|key|..i] + line[i..v] + value + line[v + |value|..]
  {
    assert line == line[..|key|] + line[|key|..i] + line[i..v] + line[v..v + |value|] + line[v + |value|..];
  }

  /** The tests a reported match has passed. */
  lemma KeyValueIndexParts(line: string, key: string, value: string)
    requires KeyValueIndex(line, key, value).Some?
    ensures LiteralAt(line, key, 0)
    ensures var d := DigitRun(line, |key|);
            var w := SpaceRun(line, |key| + d);
            var e := |key| + d + w + |value|;
            d != 0 && w != 0 && LiteralAt(line, value, |key| + d + w) &&
            SpaceRun(line, e) == |line| - e &&
            KeyValueIndex(line, key, value).value == line[|key|..|key| + d]
  {
  }

  /** Every line of the described shape is matched, and its index is the
      digit string it carries. */
  lemma KeyValueIndexComplete(line: string, key: string, value: string, num: string, ws: string, trail: string)
    requires value != [] && !IsSpace(value[0]) && Shaped(line, key, value, num, ws, trail)
    ensures KeyValueIndex(line, key, value) == Some(num)
  {
    var n := |key|;
    var i := n + |num|;
    var v := i + |ws|;
    var e := v + |value|;
    assert line[..n] == key;
    assert line[n..i] == num;
    assert line[v..e] == value;
    assert DigitsIn(line, n, i) by {
      forall j | n <= j < i
        ensures IsDigit(line[j])
      {
        assert line[j] == num[j - n];
      }
    }
    assert line[i] == ws[0];
    assert SpacesIn(line, i, v) by {
      forall j | i <= j < v
        ensures IsSpace(line[j])
      {
        assert line[j] == ws[j - i];
      }
    }
    assert SpacesIn(line, e, |line|) by {
      forall j | e <= j < |line|
        ensures IsSpace(line[j])
      {
        assert line[j] == trail[j - e];
      }
    }
    KeyValueIndexAt(line, key, value, i, v);
  }

  /** The matcher on a line given by the positions where its parts end. */
  lemma KeyValueIndexAt(line: string, key: string, value: string, i: nat, v: nat)
    requires value != [] && !IsSpace(value[0])
    requires OccursAt(line, key, 0) && |key| < i < v && OccursAt(line, value, v)
    requires DigitsIn(line, |key|, i) && !IsDigit(line[i]) && SpacesIn(line, i, v)
    requires SpacesIn(line, v + |value|, |line|)
    ensures KeyValueIndex(line, key, value) == Some(line[|key|..i])
  {
    var n := |key|;
    LiteralAtIsOccurs(line, key, 0);
    LiteralAtIsOccurs(line, value, v);
    DigitRunEndsAt(line, n, i);
    assert line[v] == value[0];
    SpaceRunEndsAt(line, i, v);
    SpaceRunToEnd(line, v + |value|);
  }

  /** A line as the files write it: a tab between the key and the value. */
  function TabbedLine(k: Kind, num: string): string {
    Prefix(k) + num + "\t" + Sentinel(k) + "\n"
  }

  lemma TabbedLineIndex(k: Kind, num: string)
    requires num != [] && AllDigits(num)
    ensures SentinelIndex(TabbedLine(k, num), k) == Some(num)
    ensures StartsWith(TabbedLine(k, num), Prefix(k))
  {
    KeyValueIndexComplete(TabbedLine(k, num), Prefix(k), Sentinel(k), num, "\t", "\n");
  }

  /** A line of one kind never matches the pattern of another kind. */
  lemma KindsDiffer(line: string, k: Kind, j: Kind)
    requires k != j && StartsWith(line, Prefix(k))
    ensures SentinelIndex(line, j).None?
  {
    LiteralAtIsOccurs(line, Prefix(j), 0);
    assert line[6] == Prefix(k)[6];
  }

  // ---------------------------------------------------------------------------
  // What the deletion keeps

  /** `a` is `b` with some elements left out, in order. */
  ghost predicate SubseqOf(a: seq<string>, b: seq<string>)
    decreases |b|
  {
    if a == [] then true
    else if b == [] then false
    else (a[0] == b[0] && SubseqOf(a[1..], b[1..])) || SubseqOf(a, b[1..])
  }

  lemma {:induction false} SubseqSkip(a: seq<string>, b: seq<string>, n: nat)
    requires n <= |b| && SubseqOf(a, b[n..])
    ensures SubseqOf(a, b)
    decreases n
  {
    if n > 0 {
      assert b[n..] == b[1..][n - 1..];
      SubseqSkip(a, b[1..], n - 1);
    }
  }

  /** The output is the input with lines left out: kept lines are unmodified
      and stay in their original order. */
  lemma {:induction false} ScanIsSubsequence(lines: seq<string>, t: (string, string, string) -> bool)
    ensures SubseqOf(Scan(lines, t), lines)
    decreases |lines|
  {
    if lines != [] {
      if |lines| >= 3 && t(lines[0], lines[1], lines[2]) {
        ScanIsSubsequence(lines[3..], t);
        SubseqSkip(Scan(lines[3..], t), lines, 3);
      } else {
        ScanIsSubsequence(lines[1..], t);
        assert ([lines[0]] + Scan(lines[1..], t))[1..] == Scan(lines[1..], t);
      }
    }
  }

  /** Lines go in threes: the output is shorter by a multiple of three. */
  lemma {:induction false} ScanRemovesThrees(lines: seq<string>, t: (string, string, string) -> bool)
    ensures |Scan(lines, t)| <= |lines| && (|lines| - |Scan(lines, t)|) % 3 == 0
    decreases |lines|
  {
    if lines != [] {
      if |lines| >= 3 && t(lines[0], lines[1], lines[2]) {
        ScanRemovesThrees(lines[3..], t);
      } else {
        ScanRemovesThrees(lines[1..], t);
      }
    }
  }

  /** A line that no accepted triplet contains is never removed. */
  lemma {:induction false} ScanKeeps(lines: seq<string>, t: (string, string, string) -> bool, l: string)
    requires forall a, b, c :: t(a, b, c) ==> a != l && b != l && c != l
    ensures multiset(Scan(lines, t))[l] == multiset(lines)[l]
    decreases |lines|
  {
    if lines != [] {
      if |lines| >= 3 && t(lines[0], lines[1], lines[2]) {
        ScanKeeps(lines[3..], t, l);
        CountAfterThree(lines, l);
      } else {
        ScanKeeps(lines[1..], t, l);
        CountCons(lines[0], Scan(lines[1..], t), l);
        CountCons(lines[0], lines[1..], l);
        assert [lines[0]] + lines[1..] == lines;
      }
    }
  }

  lemma CountCons(x: string, rest: seq<string>, l: string)
    ensures multiset([x] + rest)[l] == (if x == l then 1 else 0) + multiset(rest)[l]
  {
    assert multiset([x] + rest) == multiset([x]) + multiset(rest);
  }

  lemma CountAfterThree(lines: seq<string>, l: string)
    requires |lines| >= 3 && lines[0] != l && lines[1] != l && lines[2] != l
    ensures multiset(lines)[l] == multiset(lines[3..])[l]
  {
    assert lines == [lines[0], lines[1], lines[2]] + lines[3..];
    assert multiset(lines) == multiset([lines[0], lines[1], lines[2]]) + multiset(lines[3..]);
  }

  /** No triplet begins in the last two lines of `a` and runs on into `b`. */
  predicate NoCrossing(a: seq<string>, b: seq<string>, t: (string, string, string) -> bool) {
    (|a| >= 2 && |b| >= 1 ==> !t(a[|a| - 2], a[|a| - 1], b[0])) &&
    (|a| >= 1 && |b| >= 2 ==> !t(a[|a| - 1], b[0], b[1]))
  }

  /** Without a triplet across the seam, the scan of `a + b` is the scan of
      `a` followed by the scan of `b`. */
  lemma {:induction false} ScanConcat(a: seq<string>, b: seq<string>, t: (string, string, string) -> bool)
    requires NoCrossing(a, b, t)
    ensures Scan(a + b, t) == Scan(a, t) + Scan(b, t)
    decreases |a|
  {
    var ab := a + b;
    if a == [] {
      assert ab == b;
    } else if |ab| >= 3 && t(ab[0], ab[1], ab[2]) {
      assert 3 <= |a|;
      assert ab[..3] == a[..3];
      assert ab[3..] == a[3..] + b;
      ScanConcat(a[3..], b, t);
    } else {
      assert ab[1..] == a[1..] + b;
      assert |a| >= 3 ==> ab[..3] == a[..3];
      ScanConcat(a[1..], b, t);
    }
  }

  // ---------------------------------------------------------------------------
  // What the script keeps

  lemma KeptIsSubsequence(lines: seq<string>)
    ensures SubseqOf(Kept(lines), lines)
  {
    var r := Kept(lines);
    assert r == Scan(lines, InvalidTriplet);
    ScanIsSubsequence(lines, InvalidTriplet);
  }

  lemma RemovedInThrees(lines: seq<string>)
    ensures |Kept(lines)| <= |lines| && (|lines| - |Kept(lines)|) % 3 == 0
  {
    var r := Kept(lines);
    assert r == Scan(lines, InvalidTriplet);
    ScanRemovesThrees(lines, InvalidTriplet);
  }

  /** A line that matches one of the three patterns. */
  predicate IsSentinelLine(line: string) {
    SentinelIndex(line, Skill).Some? || SentinelIndex(line, Names).Some? ||
    SentinelIndex(line, Ranks).Some?
  }

  /** A line matching none of the patterns is never removed. */
  lemma OnlySentinelsRemoved(lines: seq<string>, l: string)
    requires !IsSentinelLine(l)
    ensures multiset(Kept(lines))[l] == multiset(lines)[l]
  {
    var r := Kept(lines);
    assert r == Scan(lines, InvalidTriplet);
    ScanKeeps(lines, InvalidTriplet, l);
  }

  /** A line that does not begin with `c_att_` (an indented one, say) is never
      removed: the patterns are anchored at the start of the line. */
  lemma UnanchoredLinesKept(lines: seq<string>, l: string)
    requires !StartsWith(l, "c_att_")
    ensures multiset(Kept(lines))[l] == multiset(lines)[l]
  {
    forall k: Kind
      ensures SentinelIndex(l, k).None?
    {
      LiteralAtIsOccurs(l, Prefix(k), 0);
    }
    OnlySentinelsRemoved(lines, l);
  }

  lemma KeptStepDrop(lines: seq<string>)
    requires |lines| >= 3 && InvalidTriplet(lines[0], lines[1], lines[2])
    ensures Kept(lines) == Kept(lines[3..])
  {
  }

  lemma KeptStepKeep(lines: seq<string>)
    requires lines != [] && !(|lines| >= 3 && InvalidTriplet(lines[0], lines[1], lines[2]))
    ensures Kept(lines) == [lines[0]] + Kept(lines[1..])
  {
  }

  lemma KeptDropAt(lines: seq<string>, i: nat)
    requires i + 2 < |lines| && InvalidTriplet(lines[i], lines[i + 1], lines[i + 2])
    ensures Kept(lines[i..]) == Kept(lines[i + 3..])
  {
    KeptStepDrop(lines[i..]);
    assert lines[i..][3..] == lines[i + 3..];
  }

  lemma KeptKeepAt(lines: seq<string>, i: nat)
    requires i < |lines| && !(i + 2 < |lines| && InvalidTriplet(lines[i], lines[i + 1], lines[i + 2]))
    ensures Kept(lines[i..]) == [lines[i]] + Kept(lines[i + 1..])
  {
    KeptStepKeep(lines[i..]);
    assert lines[i..][1..] == lines[i + 1..];
  }

  /** Without any skill sentinel line the file is left as it is. */
  lemma {:induction false} NoSkillSentinelUnchanged(lines: seq<string>)
    requires forall i :: 0 <= i < |lines| ==> SentinelIndex(lines[i], Skill).None?
    ensures Kept(lines) == lines
    decreases |lines|
  {
    if lines != [] {
      KeptStepKeep(lines);
      assert forall i :: 0 <= i < |lines[1..]| ==> lines[1..][i] == lines[i + 1];
      NoSkillSentinelUnchanged(lines[1..]);
    }
  }

  /** Indices are compared as text: `skill_5` with `names_05` and `ranks_05`
      is not a triplet, so the skill line is kept and the scan resumes at the
      very next line. */
  lemma PaddedIndexKept(num: string, rest: seq<string>)
    requires num != [] && AllDigits(num)
    ensures var lines := [TabbedLine(Skill, num), TabbedLine(Names, "0" + num),
                          TabbedLine(Ranks, "0" + num)] + rest;
            Kept(lines) == [lines[0]] + Kept(lines[1..])
  {
    var lines := [TabbedLine(Skill, num), TabbedLine(Names, "0" + num),
                  TabbedLine(Ranks, "0" + num)] + rest;
    TabbedLineIndex(Skill, num);
    TabbedLineIndex(Names, "0" + num);
    assert "0" + num != num by {
      if |num| == |"0" + num| {
      }
    }
    KeptStepKeep(lines);
  }

  /** A triplet `c_att_skill_N MB_ATT_INVALID`, `c_att_names_N ""`,
      `c_att_ranks_N -1` between other lines is removed, and the lines
      around it are treated as if it had never been there. */
  lemma TripletRemoved(before: seq<string>, num: string, after: seq<string>)
    requires num != [] && AllDigits(num)
    ensures Kept(before + [TabbedLine(Skill, num), TabbedLine(Names, num), TabbedLine(Ranks, num)] + after)
            == Kept(before) + Kept(after)
  {
    var rest := [TabbedLine(Skill, num), TabbedLine(Names, num), TabbedLine(Ranks, num)] + after;
    assert before + [TabbedLine(Skill, num), TabbedLine(Names, num), TabbedLine(Ranks, num)] + after == before + rest;
    SeamBeforeTriplet(before, rest, num);
    ScanConcat(before, rest, InvalidTriplet);
    TripletDropped(num, after);
  }

  /** No triplet starts in the lines before a skill line: neither of the
      two lines after that start can be a skill line. */
  lemma SeamBeforeTriplet(before: seq<string>, rest: seq<string>, num: string)
    requires num != [] && AllDigits(num) && rest != [] && rest[0] == TabbedLine(Skill, num)
    ensures NoCrossing(before, rest, InvalidTriplet)
  {
    TabbedLineIndex(Skill, num);
    KindsDiffer(TabbedLine(Skill, num), Skill, Names);
    KindsDiffer(TabbedLine(Skill, num), Skill, Ranks);
  }

  /** The triplet at the front is dropped. */
  lemma TripletDropped(num: string, after: seq<string>)
    requires num != [] && AllDigits(num)
    ensures Kept([TabbedLine(Skill, num), TabbedLine(Names, num), TabbedLine(Ranks, num)] + after) == Kept(after)
  {
    var rest := [TabbedLine(Skill, num), TabbedLine(Names, num), TabbedLine(Ranks, num)] + after;
    TabbedLineIndex(Skill, num);
    TabbedLineIndex(Names, num);
    TabbedLineIndex(Ranks, num);
    KeptStepDrop(rest);
    assert rest[3..] == after;
  }
}
