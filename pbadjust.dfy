/** The triplet renumberer of `pbadjust.py`: `c_att_skill_N`, `c_att_names_N`
    and `c_att_ranks_N` lines are renumbered triplet by triplet, the new
    number jumping by a gap after every block of indices; `//PBADJUST B:G`
    directives change the block size and the gap for the rest of the run. */
module Pbadjust {
  import opened Text

  const DefaultBlockSize: int := 12
  const DefaultGap: int := 3
  const DirectiveTag: string := "//PBADJUST"
  const AttTag: string := "c_att_"

  // ---------------------------------------------------------------------------
  // Numbering

  /** `calculate_new_block_number`: the block size is at least 1 and the gap
      at least 0 before the division. */
  function NewNumber(index: nat, blockSize: int, gap: int): nat {
    var b := if blockSize >= 1 then blockSize else 1;
    var g := if gap >= 0 then gap else 0;
    index + (index / b) * g
  }

  lemma DivMonotone(i: nat, j: nat, b: int)
    requires i <= j && b >= 1
    ensures i / b <= j / b
  {
    var qi, qj := i / b, j / b;
    assert qi * b + i % b == i && qj * b + j % b == j;
    if qi > qj {
      MulMonotone(qj + 1, qi, b);
    }
  }

  lemma MulMonotone(a: int, c: int, g: int)
    requires a <= c && g >= 0
    ensures a * g <= c * g
  {
    assert c * g - a * g == (c - a) * g;
  }

  lemma DivOfBlock(k: nat, r: nat, b: int)
    requires b >= 1 && r < b
    ensures (k * b + r) / b == k
  {
    var x := k * b + r;
    var q, m := x / b, x % b;
    assert q * b + m == k * b + r;
    assert (q - k) * b == r - m;
    if q > k {
      MulMonotone(1, q - k, b);
    } else if q < k {
      MulMonotone(1, k - q, b);
    }
  }

  /** The new number is never below the index and is strictly increasing in
      it, whatever the block size and gap (a block size below 1 or a negative
      gap is clamped, so there is no division by zero and no step back). */
  lemma NewNumberIncreasing(i: nat, j: nat, blockSize: int, gap: int)
    requires i < j
    ensures i <= NewNumber(i, blockSize, gap) < NewNumber(j, blockSize, gap)
  {
    var b := if blockSize >= 1 then blockSize else 1;
    var g := if gap >= 0 then gap else 0;
    var qi, qj := i / b, j / b;
    DivMonotone(i, j, b);
    MulMonotone(qi, qj, g);
    MulMonotone(0, qi, g);
  }

  /** Index `r` of group `k` becomes `k * (b + g) + r`: the first `b`
      indices keep their number, and every later group is shifted by one more
      gap. */
  lemma NewNumberOfGroup(k: nat, r: nat, b: int, g: int)
    requires b >= 1 && g >= 0 && r < b
    ensures NewNumber(k * b + r, b, g) == k * (b + g) + r
  {
    DivOfBlock(k, r, b);
  }

  /** The values the documentation lists: with the defaults 12 and 3, index
      12 becomes 15; with `//PBADJUST 13:1` (block size 14, gap 1) the
      groups start at 0, 15, 30 and 45. */
  lemma NumberingExamples()
    ensures NewNumber(11, DefaultBlockSize, DefaultGap) == 11
    ensures NewNumber(12, DefaultBlockSize, DefaultGap) == 15
    ensures NewNumber(13, 14, 1) == 13 && NewNumber(14, 14, 1) == 15
    ensures NewNumber(27, 14, 1) == 28 && NewNumber(28, 14, 1) == 30
    ensures NewNumber(41, 14, 1) == 43 && NewNumber(42, 14, 1) == 45
  {
    NewNumberOfGroup(0, 11, 12, 3);
    NewNumberOfGroup(1, 0, 12, 3);
    NewNumberOfGroup(0, 13, 14, 1);
    NewNumberOfGroup(1, 0, 14, 1);
    NewNumberOfGroup(1, 13, 14, 1);
    NewNumberOfGroup(2, 0, 14, 1);
    NewNumberOfGroup(2, 13, 14, 1);
    NewNumberOfGroup(3, 0, 14, 1);
  }

  // ---------------------------------------------------------------------------
  // Matching one line

  /** `lit` is spelled at index `i`, one character at a time. */
  predicate Spells(s: string, i: nat, lit: string) {
    i + |lit| <= |s| && forall k :: 0 <= k < |lit| ==> s[i + k] == lit[k]
  }

  predicate IsBreak(c: char) {
    c == '\n' || c == '\r'
  }

  /** `line.rstrip('\n\r')`. */
  function CleanLine(x: string): (c: string)
    ensures |c| <= |x| && c == x[..|c|]
    ensures c == [] || !IsBreak(c[|c| - 1])
  {
    if x != [] && IsBreak(x[|x| - 1]) then CleanLine(x[..|x| - 1]) else x
  }

  /** The three line types of a triplet. */
  datatype Kind = Skill | Names | Ranks

  /** The type name with the underscore that follows it. */
  function KindTag(k: Kind): string {
    match k
    case Skill => "skill_"
    case Names => "names_"
    case Ranks => "ranks_"
  }

  /** The alternation `(skill|names|ranks)_` at index `i`. */
  function KindAt(c: string, i: nat): (r: Option<Kind>)
    ensures r.Some? ==> Spells(c, i, KindTag(r.value))
  {
    if Spells(c, i, "skill_") then Some(Skill)
    else if Spells(c, i, "names_") then Some(Names)
    else if Spells(c, i, "ranks_") then Some(Ranks)
    else None
  }

  /** `c_att_<kind>_<digit>` starts at index `i`. */
  predicate AttAt(c: string, i: nat) {
    i + 13 <= |c| && Spells(c, i, AttTag) && KindAt(c, i + 6).Some? && IsDigit(c[i + 12])
  }

  /** The first index at or after `i` where `c_att_<kind>_<digit>` starts:
      the lazy leading group stops there. */
  function FirstAtt(c: string, i: nat): (r: Option<nat>)
    ensures r.Some? ==> i <= r.value && AttAt(c, r.value)
    ensures forall q :: i <= q && (r.None? || q < r.value) ==> !AttAt(c, q)
    decreases |c| - i
  {
    if i + 13 > |c| then None
    else if AttAt(c, i) then Some(i)
    else FirstAtt(c, i + 1)
  }

  /** The groups of `line_pattern`. */
  datatype AttLine = AttLine(leading: string, kind: Kind, digits: string, rest: string)

  lemma DigitsSlice(c: string, i: nat)
    requires i <= |c|
    ensures AllDigits(c[i..i + DigitRun(c, i)])
  {
    DigitRunSpec(c, i);
    var t := c[i..i + DigitRun(c, i)];
    forall k | 0 <= k < |t|
      ensures IsDigit(t[k])
    {
      assert t[k] == c[i + k];
    }
  }

  /** At a `c_att_<kind>_<digit>` the digit run is non-empty and all
      digits. */
  lemma AttDigits(c: string, p: nat)
    requires AttAt(c, p)
    ensures KindAt(c, p + 6).Some? && DigitRun(c, p + 12) >= 1
    ensures AllDigits(c[p + 12..p + 12 + DigitRun(c, p + 12)])
  {
    DigitsSlice(c, p + 12);
  }

  /** `line_pattern.match` on the line without its line break. Neither `.*?`
      nor `.*` crosses a line feed and the line no longer ends in one, so a
      line feed anywhere rules the match out. */
  function LineMatch(x: string): (r: Option<AttLine>)
    ensures r.Some? ==> AllDigits(r.value.digits) && r.value.digits != []
  {
    AttIn(CleanLine(x))
  }

  /** `line_pattern.match` on a line already stripped of its line break. */
  function AttIn(c: string): (r: Option<AttLine>)
    ensures r.Some? ==> AllDigits(r.value.digits) && r.value.digits != []
  {
    if !Lacks(c, '\n') then None
    else
      match FirstAtt(c, 0)
      case None => None
      case Some(p) =>
        var d := DigitRun(c, p + 12);
        AttDigits(c, p);
        Some(AttLine(c[..p], KindAt(c, p + 6).value, c[p + 12..p + 12 + d], c[p + 12 + d..]))
  }

  /** The settings a directive carries: the last index of a block and the
      gap. */
  datatype Setting = Setting(lastIndex: nat, gap: nat)

  /** `pbadjust_pattern.match` on the line without its line break: optional
      whitespace, `//PBADJUST`, optional whitespace, digits, a colon, digits,
      then anything without a line feed. */
  function DirectiveMatch(x: string): (r: Option<Setting>) {
    DirectiveIn(CleanLine(x))
  }

  /** The directive pattern on a line already stripped of its break. */
  function DirectiveIn(c: string): (r: Option<Setting>) {
    var p := SpaceRun(c, 0);
    if !Spells(c, p, DirectiveTag) then None
    else SettingAt(c, p + |DirectiveTag| + SpaceRun(c, p + |DirectiveTag|))
  }

  /** The `B:G` part of a directive, starting at `b0`. */
  function SettingAt(c: string, b0: nat): (r: Option<Setting>)
    requires b0 <= |c|
  {
    var nb := DigitRun(c, b0);
    if nb == 0 || b0 + nb == |c| || c[b0 + nb] != ':' then None
    else
      var g0 := b0 + nb + 1;
      var ng := DigitRun(c, g0);
      if ng == 0 || !Lacks(c[g0 + ng..], '\n') then None
      else
        DigitsSlice(c, b0);
        DigitsSlice(c, g0);
        Some(Setting(DigitsValue(c[b0..b0 + nb]), DigitsValue(c[g0..g0 + ng])))
  }

  /** A triplet line rebuilt with a new number; it always ends in one line
      feed. */
  function Rewrite(m: AttLine, n: nat): string {
    m.leading + AttTag + KindTag(m.kind) + NatToString(n) + m.rest + "\n"
  }

  // ---------------------------------------------------------------------------
  // The line loop

  /** A line of the file with what both patterns make of it. */
  datatype Line = Line(text: string, directive: Option<Setting>, att: Option<AttLine>)

  function ParseLine(x: string): Line {
    Line(x, DirectiveMatch(x), LineMatch(x))
  }

  /** Every line of a file, matched against both patterns. */
  function Parse(lines: seq<string>): (ls: seq<Line>)
    ensures |ls| == |lines|
    ensures forall k :: 0 <= k < |ls| ==> ls[k].text == lines[k]
  {
    if lines == [] then [] else [ParseLine(lines[0])] + Parse(lines[1..])
  }

  /** `parsed` holds what both patterns make of each of `lines`. */
  predicate Matches(lines: seq<string>, parsed: seq<Line>) {
    |parsed| == |lines| && forall k {:trigger ParseLine(lines[k])} :: 0 <= k < |lines| ==> parsed[k] == ParseLine(lines[k])
  }

  lemma ParseMatches(lines: seq<string>)
    ensures Matches(lines, Parse(lines))
  {
    forall k | 0 <= k < |lines|
      ensures Parse(lines)[k] == ParseLine(lines[k])
    {
      ParseAt(lines, k);
    }
  }

  lemma {:induction false} ParseAt(lines: seq<string>, k: nat)
    requires k < |lines|
    ensures Parse(lines)[k] == ParseLine(lines[k])
    decreases k
  {
    if k > 0 {
      ParseAt(lines[1..], k - 1);
    }
  }

  /** Up to `left` lines of a triplet from the start of `ls`: each line that
      matches the triplet pattern, of any of the three types, is rebuilt with
      `num`; the first line that does not match is copied and ends the
      triplet. */
  function Triplet(ls: seq<Line>, num: nat, left: nat): (block: seq<string>)
    ensures |block| <= left && |block| <= |ls|
    ensures left > 0 && ls != [] ==> |block| >= 1
  {
    if left == 0 || ls == [] then []
    else
      match ls[0].att
      case Some(m) => [Rewrite(m, num)] + Triplet(ls[1..], num, left - 1)
      case None => [ls[0].text]
  }

  /** The written lines and the block size and gap left for the next
      file. */
  datatype Pass = Pass(out: seq<string>, blockSize: int, gap: int)

  function Prepend(front: seq<string>, p: Pass): Pass {
    p.(out := front + p.out)
  }

  /** What one turn of the line loop writes, and the counter and settings it
      leaves; the lines it consumes are as many as it writes. */
  datatype Move = Move(piece: seq<string>, counter: nat, blockSize: int, gap: int)

  predicate StartsTriplet(l: Line) {
    l.att.Some? && l.att.value.kind == Skill
  }

  /** One turn of the line loop at the first of the lines `ls`. A directive
      is checked first; a `skill` line starts a triplet numbered from the
      counter; every other line is copied. */
  function Advance(ls: seq<Line>, counter: nat, blockSize: int, gap: int): (m: Move)
    requires ls != []
    ensures 1 <= |m.piece| <= |ls|
  {
    match ls[0].directive
    case Some(s) => Move([ls[0].text], 0, s.lastIndex + 1, s.gap)
    case None =>
      if StartsTriplet(ls[0]) then
        Move(Triplet(ls, NewNumber(counter, blockSize, gap), 3), counter + 1, blockSize, gap)
      else Move([ls[0].text], counter, blockSize, gap)
  }

  /** The line loop of `process_mbch_file` on the remaining lines `ls`. */
  function Scan(ls: seq<Line>, counter: nat, blockSize: int, gap: int): Pass
    decreases |ls|
  {
    if ls == [] then Pass([], blockSize, gap)
    else
      var m := Advance(ls, counter, blockSize, gap);
      Prepend(m.piece, Scan(ls[|m.piece|..], m.counter, m.blockSize, m.gap))
  }

  lemma PrependTwice(a: seq<string>, b: seq<string>, p: Pass)
    ensures Prepend(a + b, p) == Prepend(a, Prepend(b, p))
  {
    assert (a + b) + p.out == a + (b + p.out);
  }

  // ---------------------------------------------------------------------------
  // A rebuilt line matches again

  lemma SpellsAgree(a: string, b: string, i: nat, lit: string)
    requires i + |lit| <= |a| && i + |lit| <= |b|
    requires forall k :: i <= k < i + |lit| ==> a[k] == b[k]
    ensures Spells(a, i, lit) == Spells(b, i, lit)
  {
    if Spells(a, i, lit) {
      forall k | 0 <= k < |lit|
        ensures b[i + k] == lit[k]
      {
        assert a[i + k] == lit[k];
      }
    }
    if Spells(b, i, lit) {
      forall k | 0 <= k < |lit|
        ensures a[i + k] == lit[k]
      {
        assert b[i + k] == lit[k];
      }
    }
  }

  /** Whether `c_att_<kind>_<digit>` starts at `q` depends only on the twelve
      characters from `q` and on whether the next one is a digit. */
  lemma AttAtAgree(a: string, b: string, q: nat)
    requires q + 13 <= |a| && q + 13 <= |b|
    requires forall k :: q <= k < q + 12 ==> a[k] == b[k]
    requires IsDigit(a[q + 12]) == IsDigit(b[q + 12])
    ensures AttAt(a, q) == AttAt(b, q)
    ensures KindAt(a, q + 6) == KindAt(b, q + 6)
  {
    SpellsAgree(a, b, q, AttTag);
    SpellsAgree(a, b, q + 6, "skill_");
    SpellsAgree(a, b, q + 6, "names_");
    SpellsAgree(a, b, q + 6, "ranks_");
  }

  lemma FirstAttIs(c: string, p: nat)
    requires AttAt(c, p) && forall q :: 0 <= q < p ==> !AttAt(c, q)
    ensures FirstAtt(c, 0) == Some(p)
  {
    var r := FirstAtt(c, 0);
    assert !(r.None? || p < r.value);
    assert r.value >= p by {
      assert AttAt(c, r.value);
    }
  }

  lemma CleanKeeps(s: string)
    requires s != [] && !IsBreak(s[|s| - 1])
    ensures CleanLine(s + "\n") == s
  {
    assert (s + "\n")[..|s + "\n"| - 1] == s;
  }

  /** What `line_pattern` captures from a line once its line break is
      stripped, the line feed check passed, the first `c_att_` found and its
      digit run measured. */
  lemma MatchOf(x: string, c: string, p: nat, d: nat)
    requires CleanLine(x) == c && Lacks(c, '\n') && FirstAtt(c, 0) == Some(p)
    requires p + 12 <= |c| && DigitRun(c, p + 12) == d
    ensures LineMatch(x) == Some(AttLine(c[..p], KindAt(c, p + 6).value, c[p + 12..p + 12 + d], c[p + 12 + d..]))
  {
    AttOf(c, p, d);
  }

  lemma AttOf(c: string, p: nat, d: nat)
    requires Lacks(c, '\n') && FirstAtt(c, 0) == Some(p)
    requires p + 12 <= |c| && DigitRun(c, p + 12) == d
    ensures AttIn(c) == Some(AttLine(c[..p], KindAt(c, p + 6).value, c[p + 12..p + 12 + d], c[p + 12 + d..]))
  {
  }

  /** The pieces of `head + digits + rest`, where `head` is `p + 12`
      characters long. */
  lemma Pieces(head: string, digits: string, rest: string, p: nat)
    requires |head| == p + 12
    ensures var r := head + digits + rest;
      r[..p + 12] == head && r[..p] == head[..p] && r[p + 12..p + 12 + |digits|] == digits && r[p + 12 + |digits|..] == rest
  {
    var r := head + digits + rest;
    assert r[..p + 12] == head;
    assert r[p + 12..p + 12 + |digits|] == digits;
    assert r[p + 12 + |digits|..] == rest;
  }

  /** No line feed and no trailing line break in the rebuilt line. */
  lemma RebuiltClean(c: string, p: nat, d: nat, digits: string)
    requires p + 12 + d <= |c| && Lacks(c, '\n') && !IsBreak(c[|c| - 1])
    requires digits != [] && AllDigits(digits)
    ensures var r := c[..p + 12] + digits + c[p + 12 + d..];
      Lacks(r, '\n') && CleanLine(r + "\n") == r
  {
    var head, rest := c[..p + 12], c[p + 12 + d..];
    var r := head + digits + rest;
    forall k | 0 <= k < |r|
      ensures r[k] != '\n'
    {
      if k < p + 12 {
        assert r[k] == c[k];
      } else if k < p + 12 + |digits| {
        assert r[k] == digits[k - p - 12];
      } else {
        assert r[k] == c[k - |digits| + d];
      }
    }
    if rest == [] {
      assert r[|r| - 1] == digits[|digits| - 1];
    } else {
      assert r[|r| - 1] == c[|c| - 1];
    }
    CleanKeeps(r);
  }

  /** The rebuilt line still has its first `c_att_<kind>_<digit>` at `p`,
      of the same kind. */
  lemma RebuiltFirst(c: string, p: nat, d: nat, digits: string)
    requires AttAt(c, p) && forall q :: 0 <= q < p ==> !AttAt(c, q)
    requires p + 12 + d <= |c| && digits != [] && AllDigits(digits)
    ensures var r := c[..p + 12] + digits + c[p + 12 + d..];
      FirstAtt(r, 0) == Some(p) && KindAt(r, p + 6) == KindAt(c, p + 6)
  {
    var r := c[..p + 12] + digits + c[p + 12 + d..];
    assert forall k :: 0 <= k < p + 12 ==> r[k] == c[k];
    assert r[p + 12] == digits[0];
    AttAtAgree(c, r, p);
    forall q | 0 <= q < p
      ensures !AttAt(r, q)
    {
      AttAtAgree(c, r, q);
    }
    FirstAttIs(r, p);
  }

  /** The digit run of the rebuilt line is exactly the new digits. */
  lemma RebuiltDigits(c: string, p: nat, d: nat, digits: string)
    requires p + 12 + d <= |c| && (p + 12 + d == |c| || !IsDigit(c[p + 12 + d]))
    requires AllDigits(digits)
    ensures DigitRun(c[..p + 12] + digits + c[p + 12 + d..], p + 12) == |digits|
  {
    var r := c[..p + 12] + digits + c[p + 12 + d..];
    assert forall k :: p + 12 <= k < p + 12 + |digits| ==> r[k] == digits[k - p - 12];
    if p + 12 + d < |c| {
      assert r[p + 12 + |digits|] == c[p + 12 + d];
    }
    DigitRunEndsAt(r, p + 12, p + 12 + |digits|);
  }

  /** The leading text, `c_att_` and the type with its underscore are the
      first `p + 12` characters of the matched line. */
  lemma MatchedHead(c: string, p: nat, kind: Kind)
    requires AttAt(c, p) && KindAt(c, p + 6) == Some(kind)
    ensures c[..p] + AttTag + KindTag(kind) == c[..p + 12]
  {
    assert Spells(c, p, AttTag) && Spells(c, p + 6, KindTag(kind));
    var h := c[..p] + AttTag + KindTag(kind);
    forall k | 0 <= k < p + 12
      ensures h[k] == c[k]
    {
      if p <= k < p + 6 {
        assert h[k] == AttTag[k - p];
      } else if p + 6 <= k {
        assert h[k] == KindTag(kind)[k - p - 6];
      }
    }
  }

  /** The matched line `c` with its digits replaced by `digits`, and a line
      feed after it, matches with the same leading text, kind and rest. */
  lemma RebuiltMatch(c: string, p: nat, d: nat, digits: string, kind: Kind)
    requires AttAt(c, p) && forall q :: 0 <= q < p ==> !AttAt(c, q)
    requires KindAt(c, p + 6) == Some(kind)
    requires p + 12 + d <= |c| && (p + 12 + d == |c| || !IsDigit(c[p + 12 + d]))
    requires Lacks(c, '\n') && !IsBreak(c[|c| - 1])
    requires digits != [] && AllDigits(digits)
    ensures LineMatch(c[..p + 12] + digits + c[p + 12 + d..] + "\n") == Some(AttLine(c[..p], kind, digits, c[p + 12 + d..]))
  {
    var r := c[..p + 12] + digits + c[p + 12 + d..];
    RebuiltClean(c, p, d, digits);
    RebuiltFirst(c, p, d, digits);
    RebuiltDigits(c, p, d, digits);
    Pieces(c[..p + 12], digits, c[p + 12 + d..], p);
    assert c[..p + 12][..p] == c[..p];
    MatchOf(r + "\n", r, p, |digits|);
  }

  /** `RebuiltMatch` with the kept head and rest named. */
  lemma RebuiltPieces(c: string, p: nat, d: nat, head: string, digits: string, rest: string, kind: Kind)
    requires AttAt(c, p) && forall q :: 0 <= q < p ==> !AttAt(c, q)
    requires KindAt(c, p + 6) == Some(kind)
    requires p + 12 + d <= |c| && (p + 12 + d == |c| || !IsDigit(c[p + 12 + d]))
    requires Lacks(c, '\n') && !IsBreak(c[|c| - 1])
    requires digits != [] && AllDigits(digits)
    requires head == c[..p + 12] && rest == c[p + 12 + d..]
    ensures LineMatch(head + digits + rest + "\n") == Some(AttLine(c[..p], kind, digits, rest))
  {
    RebuiltMatch(c, p, d, digits, kind);
  }

  /** A line that matches has no line feed once stripped, and an index
      where `c_att_` starts. */
  lemma MatchedLine(x: string)
    requires LineMatch(x).Some?
    ensures Lacks(CleanLine(x), '\n') && FirstAtt(CleanLine(x), 0).Some?
  {
  }

  /** The stripped line `c` whose first `c_att_` is at `p`, rebuilt from its
      leading text, tag and type around `digits`. */
  lemma RewriteParts(c: string, p: nat, d: nat, digits: string)
    requires FirstAtt(c, 0) == Some(p) && DigitRun(c, p + 12) == d
    requires Lacks(c, '\n') && (c == [] || !IsBreak(c[|c| - 1]))
    requires digits != [] && AllDigits(digits)
    ensures var kind := KindAt(c, p + 6).value;
      LineMatch(c[..p] + AttTag + KindTag(kind) + digits + c[p + 12 + d..] + "\n") == Some(AttLine(c[..p], kind, digits, c[p + 12 + d..]))
  {
    var kind := KindAt(c, p + 6).value;
    DigitRunSpec(c, p + 12);
    MatchedHead(c, p, kind);
    RebuiltPieces(c, p, d, c[..p] + AttTag + KindTag(kind), digits, c[p + 12 + d..], kind);
  }

  /** A matched line rebuilt around any other non-empty digit string
      matches again with those digits and nothing else changed. */
  lemma RewriteDigits(x: string, digits: string)
    requires LineMatch(x).Some? && digits != [] && AllDigits(digits)
    ensures var m := LineMatch(x).value;
      LineMatch(m.leading + AttTag + KindTag(m.kind) + digits + m.rest + "\n") == Some(m.(digits := digits))
  {
    var c, p, d := MatchedParts(x);
    RewriteParts(c, p, d, digits);
  }

  /** The cleaned line of a match, the index of its first `c_att_` and the
      length of its digit run, with the groups they give. */
  lemma MatchedParts(x: string) returns (c: string, p: nat, d: nat)
    requires LineMatch(x).Some?
    ensures c == CleanLine(x) && Lacks(c, '\n') && (c == [] || !IsBreak(c[|c| - 1]))
    ensures FirstAtt(c, 0) == Some(p) && p + 12 <= |c| && DigitRun(c, p + 12) == d
    ensures LineMatch(x) == Some(AttLine(c[..p], KindAt(c, p + 6).value, c[p + 12..p + 12 + d], c[p + 12 + d..]))
  {
    c := CleanLine(x);
    MatchedLine(x);
    p := FirstAtt(c, 0).value;
    d := DigitRun(c, p + 12);
    MatchOf(x, c, p, d);
  }

  /** A line rebuilt with a new number matches the triplet pattern again,
      with the same leading text, type name and rest of line byte for byte
      and the new number as its digits: renumbering a renumbered file
      changes nothing but the numbers. */
  lemma RewriteRoundTrip(x: string, n: nat)
    requires LineMatch(x).Some?
    ensures LineMatch(Rewrite(LineMatch(x).value, n)) == Some(LineMatch(x).value.(digits := NatToString(n)))
  {
    RewriteDigits(x, NatToString(n));
  }

  // ---------------------------------------------------------------------------
  // Reading a directive

  /** What `pbadjust_pattern` reads once the positions of its parts are
      known. */
  lemma SettingOf(c: string, b0: nat, nb: nat, ng: nat)
    requires b0 + nb < |c| && DigitRun(c, b0) == nb && nb > 0 && c[b0 + nb] == ':'
    requires DigitRun(c, b0 + nb + 1) == ng && ng > 0 && Lacks(c[b0 + nb + 1 + ng..], '\n')
    requires AllDigits(c[b0..b0 + nb]) && AllDigits(c[b0 + nb + 1..b0 + nb + 1 + ng])
    ensures SettingAt(c, b0) == Some(Setting(DigitsValue(c[b0..b0 + nb]), DigitsValue(c[b0 + nb + 1..b0 + nb + 1 + ng])))
  {
  }

  lemma HeadOf(c: string, p: nat, n: nat)
    requires SpaceRun(c, 0) == p && Spells(c, p, DirectiveTag)
    requires SpaceRun(c, p + |DirectiveTag|) == n
    ensures DirectiveIn(c) == SettingAt(c, p + |DirectiveTag| + n)
  {
  }

  /** `c` is whitespace `ws`, the tag, whitespace `inner`, the digits
      `first`, a colon, the digits `second` and then `tail`, stated slice by
      slice. */
  predicate DirectiveLaid(c: string, ws: string, inner: string, first: string, second: string, tail: string) {
    var t := |ws| + |DirectiveTag|;
    var b0 := t + |inner|;
    var g0 := b0 + |first| + 1;
    |c| == g0 + |second| + |tail|
    && c[..|ws|] == ws && c[|ws|..t] == DirectiveTag && c[t..b0] == inner
    && c[b0..b0 + |first|] == first && c[b0 + |first|] == ':'
    && c[g0..g0 + |second|] == second && c[g0 + |second|..] == tail
  }

  /** The written-out directive has that layout. */
  lemma LaidOut(ws: string, inner: string, first: string, second: string, tail: string)
    ensures DirectiveLaid(ws + DirectiveTag + inner + first + ":" + second + tail, ws, inner, first, second, tail)
  {
    var c := ws + DirectiveTag + inner + first + ":" + second + tail;
    var t := |ws| + |DirectiveTag|;
    var b0 := t + |inner|;
    var g0 := b0 + |first| + 1;
    assert c[..|ws|] == ws;
    assert c[|ws|..t] == DirectiveTag;
    assert c[t..b0] == inner;
    assert c[b0..b0 + |first|] == first;
    assert c[b0 + |first|] == ':';
    assert c[g0..g0 + |second|] == second;
    assert c[g0 + |second|..] == tail;
  }

  /** A whitespace run spelled out as `w` at `i` and ended by a
      non-whitespace character. */
  lemma SpaceRunOver(c: string, i: nat, w: string)
    requires i + |w| < |c| && c[i..i + |w|] == w && AllSpace(w) && !IsSpace(c[i + |w|])
    ensures SpaceRun(c, i) == |w|
  {
    assert forall k :: i <= k < i + |w| ==> c[k] == c[i..i + |w|][k - i];
    SpaceRunEndsAt(c, i, i + |w|);
  }

  /** A digit run spelled out as `w` at `i` and not followed by a digit. */
  lemma DigitRunOver(c: string, i: nat, w: string)
    requires i + |w| <= |c| && c[i..i + |w|] == w && AllDigits(w)
    requires i + |w| == |c| || !IsDigit(c[i + |w|])
    ensures DigitRun(c, i) == |w|
  {
    assert forall k :: i <= k < i + |w| ==> c[k] == c[i..i + |w|][k - i];
    DigitRunEndsAt(c, i, i + |w|);
  }

  lemma SpellsSlice(c: string, i: nat, lit: string)
    requires i + |lit| <= |c| && c[i..i + |lit|] == lit
    ensures Spells(c, i, lit)
  {
    forall k | 0 <= k < |lit|
      ensures c[i + k] == lit[k]
    {
      assert c[i + k] == c[i..i + |lit|][k];
    }
  }

  /** The leading whitespace, the tag and the whitespace after it. */
  lemma LaidHead(c: string, ws: string, inner: string, first: string, second: string, tail: string)
    requires DirectiveLaid(c, ws, inner, first, second, tail)
    requires AllSpace(ws) && AllSpace(inner) && first != [] && AllDigits(first)
    ensures SpaceRun(c, 0) == |ws| && Spells(c, |ws|, DirectiveTag)
    ensures SpaceRun(c, |ws| + |DirectiveTag|) == |inner|
  {
    var t := |ws| + |DirectiveTag|;
    var b0 := t + |inner|;
    assert c[|ws|] == c[|ws|..t][0] == '/';
    assert c[..|ws|] == c[0..|ws|];
    SpaceRunOver(c, 0, ws);
    SpellsSlice(c, |ws|, DirectiveTag);
    assert c[b0] == c[b0..b0 + |first|][0] == first[0];
    SpaceRunOver(c, t, inner);
  }

  /** The two numbers around the colon and the tail after them. */
  lemma LaidNumbers(c: string, ws: string, inner: string, first: string, second: string, tail: string)
    requires DirectiveLaid(c, ws, inner, first, second, tail)
    requires first != [] && AllDigits(first) && second != [] && AllDigits(second)
    requires tail == [] || !IsDigit(tail[0])
    ensures var b0 := |ws| + |DirectiveTag| + |inner|;
      DigitRun(c, b0) == |first| && DigitRun(c, b0 + |first| + 1) == |second|
  {
    var b0 := |ws| + |DirectiveTag| + |inner|;
    var g0 := b0 + |first| + 1;
    DigitRunOver(c, b0, first);
    if tail != [] {
      assert c[g0 + |second|] == c[g0 + |second|..][0];
    }
    DigitRunOver(c, g0, second);
  }

  /** The `B:G` part of a laid-out directive reads back both numbers. */
  lemma LaidSetting(c: string, ws: string, inner: string, first: string, second: string, tail: string)
    requires DirectiveLaid(c, ws, inner, first, second, tail)
    requires first != [] && AllDigits(first) && second != [] && AllDigits(second)
    requires tail == [] || !IsDigit(tail[0])
    requires Lacks(tail, '\n')
    ensures |ws| + |DirectiveTag| + |inner| <= |c|
    ensures SettingAt(c, |ws| + |DirectiveTag| + |inner|) == Some(Setting(DigitsValue(first), DigitsValue(second)))
  {
    var b0 := |ws| + |DirectiveTag| + |inner|;
    LaidNumbers(c, ws, inner, first, second, tail);
    SettingOf(c, b0, |first|, |second|);
  }

  /** A laid-out directive whose tail does not end in a line break does not
      end in one either. */
  lemma LaidLast(c: string, ws: string, inner: string, first: string, second: string, tail: string)
    requires DirectiveLaid(c, ws, inner, first, second, tail)
    requires second != [] && AllDigits(second)
    requires tail == [] || !IsBreak(tail[|tail| - 1])
    ensures c == [] || !IsBreak(c[|c| - 1])
  {
    var g0 := |ws| + |DirectiveTag| + |inner| + |first| + 1;
    if tail == [] {
      assert c[|c| - 1] == c[g0..g0 + |second|][|second| - 1];
    } else {
      assert c[|c| - 1] == c[g0 + |second|..][|tail| - 1];
    }
  }

  /** The directive pattern on `c` plus a line feed, once its parts are
      known. */
  lemma ReadBack(c: string, p: nat, n: nat, r: Setting)
    requires c == [] || !IsBreak(c[|c| - 1])
    requires SpaceRun(c, 0) == p && Spells(c, p, DirectiveTag)
    requires SpaceRun(c, p + |DirectiveTag|) == n
    requires SettingAt(c, p + |DirectiveTag| + n) == Some(r)
    ensures DirectiveMatch(c + "\n") == Some(r)
  {
    CleanKeeps(c);
    HeadOf(c, p, n);
  }

  /** A laid-out directive line reads back the values of its two digit
      strings. */
  lemma LaidReads(c: string, ws: string, inner: string, first: string, second: string, tail: string)
    requires DirectiveLaid(c, ws, inner, first, second, tail)
    requires AllSpace(ws) && AllSpace(inner) && Lacks(tail, '\n')
    requires first != [] && AllDigits(first) && second != [] && AllDigits(second)
    requires tail == [] || (!IsDigit(tail[0]) && !IsBreak(tail[|tail| - 1]))
    ensures DirectiveMatch(c + "\n") == Some(Setting(DigitsValue(first), DigitsValue(second)))
  {
    LaidHead(c, ws, inner, first, second, tail);
    LaidSetting(c, ws, inner, first, second, tail);
    LaidLast(c, ws, inner, first, second, tail);
    ReadBack(c, |ws|, |inner|, Setting(DigitsValue(first), DigitsValue(second)));
  }

  /** A directive line `//PBADJUST B:G`, after any whitespace, with any
      whitespace before `B` and a tail that does not extend `G` (such as an
      ignored `:x` or a comment), makes the block size `B + 1` and the gap
      `G`. */
  lemma DirectiveRoundTrip(ws: string, inner: string, b: nat, g: nat, tail: string)
    requires AllSpace(ws) && AllSpace(inner) && Lacks(tail, '\n')
    requires tail == [] || (!IsDigit(tail[0]) && !IsBreak(tail[|tail| - 1]))
    ensures DirectiveMatch(ws + DirectiveTag + inner + NatToString(b) + ":" + NatToString(g) + tail + "\n") == Some(Setting(b, g))
  {
    var first, second := NatToString(b), NatToString(g);
    var c := ws + DirectiveTag + inner + first + ":" + second + tail;
    LaidOut(ws, inner, first, second, tail);
    LaidReads(c, ws, inner, first, second, tail);
    NatToStringRoundTrip(b);
    NatToStringRoundTrip(g);
  }

  // ---------------------------------------------------------------------------
  // What the line loop promises

  /** A triplet block read off the lines it came from: every line but the
      last matched the triplet pattern and was rebuilt with `num`; the last
      one was rebuilt too, and then the block stopped because it had `left`
      lines or the file ended, or it did not match and was copied as the
      line that broke the triplet. */
  predicate Shaped(ls: seq<Line>, num: nat, left: nat, block: seq<string>) {
    1 <= |block| <= left && |block| <= |ls|
    && (forall k :: 0 <= k < |block| - 1 ==> ls[k].att.Some? && block[k] == Rewrite(ls[k].att.value, num))
    && (if ls[|block| - 1].att.Some?
        then block[|block| - 1] == Rewrite(ls[|block| - 1].att.value, num) && (|block| == left || |block| == |ls|)
        else block[|block| - 1] == ls[|block| - 1].text)
  }

  /** A rebuilt matching line in front of a shaped block for the rest of
      the lines gives a shaped block with one more line. */
  lemma ShapedCons(ls: seq<Line>, num: nat, left: nat, tail: seq<string>)
    requires |ls| > 1 && left > 1 && ls[0].att.Some?
    requires Shaped(ls[1..], num, left - 1, tail)
    ensures Shaped(ls, num, left, [Rewrite(ls[0].att.value, num)] + tail)
  {
    var block := [Rewrite(ls[0].att.value, num)] + tail;
    forall k | 0 <= k < |block| - 1
      ensures ls[k].att.Some? && block[k] == Rewrite(ls[k].att.value, num)
    {
      if k > 0 {
        assert ls[k] == ls[1..][k - 1] && block[k] == tail[k - 1];
      }
    }
    assert ls[|block| - 1] == ls[1..][|tail| - 1] && block[|block| - 1] == tail[|tail| - 1];
  }

  lemma {:induction false} TripletShape(ls: seq<Line>, num: nat, left: nat)
    requires left > 0 && ls != []
    ensures Shaped(ls, num, left, Triplet(ls, num, left))
    decreases left
  {
    if ls[0].att.Some? && left > 1 && |ls| > 1 {
      TripletShape(ls[1..], num, left - 1);
      ShapedCons(ls, num, left, Triplet(ls[1..], num, left - 1));
    }
  }

  /** Output line `o` stands for input line `l`: a copy of it, or, when it
      matched the triplet pattern, the same line rebuilt with some number. */
  ghost predicate Renders(l: Line, o: string) {
    o == l.text || (l.att.Some? && exists n :: o == Rewrite(l.att.value, n))
  }

  lemma MoveRenders(ls: seq<Line>, counter: nat, blockSize: int, gap: int, k: nat)
    requires ls != [] && k < |Advance(ls, counter, blockSize, gap).piece|
    ensures Renders(ls[k], Advance(ls, counter, blockSize, gap).piece[k])
  {
    if ls[0].directive.None? && StartsTriplet(ls[0]) {
      var num := NewNumber(counter, blockSize, gap);
      TripletShape(ls, num, 3);
      var block := Triplet(ls, num, 3);
      if ls[k].att.Some? {
        assert block[k] == Rewrite(ls[k].att.value, num);
      }
    }
  }

  /** The output has exactly one line per input line, and each output line
      stands for the input line at the same position; a line that does not
      match the triplet pattern is copied verbatim. */
  lemma {:induction false} ScanAligned(ls: seq<Line>, counter: nat, blockSize: int, gap: int)
    ensures |Scan(ls, counter, blockSize, gap).out| == |ls|
    ensures forall k :: 0 <= k < |ls| ==> Renders(ls[k], Scan(ls, counter, blockSize, gap).out[k])
    ensures forall k :: 0 <= k < |ls| && ls[k].att.None? ==> Scan(ls, counter, blockSize, gap).out[k] == ls[k].text
    decreases |ls|
  {
    if ls != [] {
      var m := Advance(ls, counter, blockSize, gap);
      var rest := ls[|m.piece|..];
      var tail := Scan(rest, m.counter, m.blockSize, m.gap);
      ScanAligned(rest, m.counter, m.blockSize, m.gap);
      var out := Scan(ls, counter, blockSize, gap).out;
      assert out == m.piece + tail.out;
      forall k | 0 <= k < |ls|
        ensures Renders(ls[k], out[k])
      {
        if k < |m.piece| {
          MoveRenders(ls, counter, blockSize, gap, k);
        } else {
          assert ls[k] == rest[k - |m.piece|] && out[k] == tail.out[k - |m.piece|];
        }
      }
    }
  }

  /** The block size and gap a scan leaves are the ones it started with or
      those of a directive among the lines. */
  lemma {:induction false} ScanSettings(ls: seq<Line>, counter: nat, blockSize: int, gap: int)
    ensures (Scan(ls, counter, blockSize, gap).blockSize == blockSize && Scan(ls, counter, blockSize, gap).gap == gap)
      || exists k :: 0 <= k < |ls| && ls[k].directive.Some?
           && Scan(ls, counter, blockSize, gap).blockSize == ls[k].directive.value.lastIndex + 1
           && Scan(ls, counter, blockSize, gap).gap == ls[k].directive.value.gap
    decreases |ls|
  {
    if ls != [] {
      var m := Advance(ls, counter, blockSize, gap);
      var rest := ls[|m.piece|..];
      ScanSettings(rest, m.counter, m.blockSize, m.gap);
      var r := Scan(ls, counter, blockSize, gap);
      assert r.blockSize == Scan(rest, m.counter, m.blockSize, m.gap).blockSize;
      assert r.gap == Scan(rest, m.counter, m.blockSize, m.gap).gap;
      if !(r.blockSize == m.blockSize && r.gap == m.gap) {
        var j :| 0 <= j < |rest| && rest[j].directive.Some?
          && r.blockSize == rest[j].directive.value.lastIndex + 1 && r.gap == rest[j].directive.value.gap;
        assert ls[j + |m.piece|] == rest[j];
      } else if ls[0].directive.Some? {
        assert ls[0].directive.Some? && r.blockSize == ls[0].directive.value.lastIndex + 1;
      }
    }
  }

  /** A file without directives leaves the block size and gap as they
      were. */
  lemma NoDirectiveKeepsSettings(ls: seq<Line>, counter: nat, blockSize: int, gap: int)
    requires forall k :: 0 <= k < |ls| ==> ls[k].directive.None?
    ensures Scan(ls, counter, blockSize, gap).blockSize == blockSize
    ensures Scan(ls, counter, blockSize, gap).gap == gap
  {
    ScanSettings(ls, counter, blockSize, gap);
  }

  /** `process_mbch_file`'s promise in the script's own terms: one output
      line per input line, each either the input line itself or, when it
      matches the triplet pattern, that line rebuilt with some number; a line
      the triplet pattern does not match is copied verbatim. */
  ghost predicate RendersLine(x: string, o: string) {
    o == x || (LineMatch(x).Some? && exists n :: o == Rewrite(LineMatch(x).value, n))
  }

  lemma FileAligned(lines: seq<string>, counter: nat, blockSize: int, gap: int)
    ensures |Scan(Parse(lines), counter, blockSize, gap).out| == |lines|
    ensures forall k :: 0 <= k < |lines| ==> RendersLine(lines[k], Scan(Parse(lines), counter, blockSize, gap).out[k])
  {
    var out := Scan(Parse(lines), counter, blockSize, gap).out;
    ScanAligned(Parse(lines), counter, blockSize, gap);
    forall k | 0 <= k < |lines|
      ensures RendersLine(lines[k], out[k])
    {
      ParseAt(lines, k);
    }
  }

  // ---------------------------------------------------------------------------
  // Which number each triplet gets

  /** A directive line is copied and starts a new numbering: the counter
      goes back to 0 and the block size and gap become `B + 1` and `G`. */
  lemma ScanDirective(ls: seq<Line>, counter: nat, blockSize: int, gap: int)
    requires ls != [] && ls[0].directive.Some?
    ensures Scan(ls, counter, blockSize, gap)
      == Prepend([ls[0].text], Scan(ls[1..], 0, ls[0].directive.value.lastIndex + 1, ls[0].directive.value.gap))
  {
  }

  /** A line that is neither a directive nor a `skill` line, a stray `names`
      or `ranks` line included, is copied and leaves the counter alone. */
  lemma ScanCopied(ls: seq<Line>, counter: nat, blockSize: int, gap: int)
    requires ls != [] && ls[0].directive.None? && !StartsTriplet(ls[0])
    ensures Scan(ls, counter, blockSize, gap) == Prepend([ls[0].text], Scan(ls[1..], counter, blockSize, gap))
  {
  }

  /** A `skill` line followed by a line the triplet pattern does not match
      (a directive among them): the skill line is renumbered from the
      counter, the other line is copied and consumed, and the counter still
      moves on. */
  lemma ScanBrokenTriplet(ls: seq<Line>, counter: nat, blockSize: int, gap: int)
    requires |ls| >= 2 && ls[0].directive.None? && StartsTriplet(ls[0]) && ls[1].att.None?
    ensures Scan(ls, counter, blockSize, gap)
      == Prepend([Rewrite(ls[0].att.value, NewNumber(counter, blockSize, gap)), ls[1].text],
                 Scan(ls[2..], counter + 1, blockSize, gap))
  {
    var num := NewNumber(counter, blockSize, gap);
    assert Triplet(ls[1..], num, 2) == [ls[1].text];
    assert Triplet(ls, num, 3) == [Rewrite(ls[0].att.value, num), ls[1].text];
  }

  /** A `skill` line and one more matching line, then a line the pattern
      does not match: two lines renumbered, the third copied and consumed. */
  lemma ScanLateBreak(ls: seq<Line>, counter: nat, blockSize: int, gap: int)
    requires |ls| >= 3 && ls[0].directive.None? && StartsTriplet(ls[0]) && ls[1].att.Some? && ls[2].att.None?
    ensures var num := NewNumber(counter, blockSize, gap);
      Scan(ls, counter, blockSize, gap)
        == Prepend([Rewrite(ls[0].att.value, num), Rewrite(ls[1].att.value, num), ls[2].text],
                   Scan(ls[3..], counter + 1, blockSize, gap))
  {
    BrokenAtThird(ls, NewNumber(counter, blockSize, gap));
  }

  /** Two matching lines and one that does not match make a triplet broken
      at its third line. */
  lemma BrokenAtThird(ls: seq<Line>, num: nat)
    requires |ls| >= 3 && ls[0].att.Some? && ls[1].att.Some? && ls[2].att.None?
    ensures Triplet(ls, num, 3) == [Rewrite(ls[0].att.value, num), Rewrite(ls[1].att.value, num), ls[2].text]
  {
    assert Triplet(ls[2..], num, 1) == [ls[2].text];
    assert Triplet(ls[1..], num, 2) == [Rewrite(ls[1].att.value, num), ls[2].text];
  }

  /** A `skill` line and two more matching lines: all three are renumbered
      with the number of the counter, which then moves on. */
  lemma ScanFullTriplet(ls: seq<Line>, counter: nat, blockSize: int, gap: int)
    requires |ls| >= 3 && ls[0].directive.None? && StartsTriplet(ls[0]) && ls[1].att.Some? && ls[2].att.Some?
    ensures var num := NewNumber(counter, blockSize, gap);
      Scan(ls, counter, blockSize, gap)
        == Prepend([Rewrite(ls[0].att.value, num), Rewrite(ls[1].att.value, num), Rewrite(ls[2].att.value, num)],
                   Scan(ls[3..], counter + 1, blockSize, gap))
  {
    FullTriplet(ls, NewNumber(counter, blockSize, gap));
  }

  /** Three matching lines make a whole triplet. */
  lemma FullTriplet(ls: seq<Line>, num: nat)
    requires |ls| >= 3 && ls[0].att.Some? && ls[1].att.Some? && ls[2].att.Some?
    ensures Triplet(ls, num, 3) == [Rewrite(ls[0].att.value, num), Rewrite(ls[1].att.value, num), Rewrite(ls[2].att.value, num)]
  {
    assert Triplet(ls[2..], num, 1) == [Rewrite(ls[2].att.value, num)];
    assert Triplet(ls[1..], num, 2) == [Rewrite(ls[1].att.value, num), Rewrite(ls[2].att.value, num)];
  }

  /** Lines made of complete triplets, each led by a `skill` line that is no
      directive and followed by two matching lines. */
  predicate Triplets(ls: seq<Line>)
    decreases |ls|
  {
    ls == []
    || (|ls| >= 3 && ls[0].directive.None? && StartsTriplet(ls[0]) && ls[1].att.Some? && ls[2].att.Some?
        && Triplets(ls[3..]))
  }

  /** A run of complete triplets keeps the block size and gap and writes one
      line per line. */
  lemma {:induction false} ScanTripletsShape(ls: seq<Line>, counter: nat, blockSize: int, gap: int)
    requires Triplets(ls)
    ensures |Scan(ls, counter, blockSize, gap).out| == |ls|
    ensures Scan(ls, counter, blockSize, gap).blockSize == blockSize && Scan(ls, counter, blockSize, gap).gap == gap
    decreases |ls|
  {
    if ls != [] {
      ScanFullTriplet(ls, counter, blockSize, gap);
      ScanTripletsShape(ls[3..], counter + 1, blockSize, gap);
    }
  }

  /** The first triplet of a run of complete triplets: line `r` is
      renumbered from the counter. */
  lemma FirstTriplet(ls: seq<Line>, counter: nat, blockSize: int, gap: int, r: nat)
    requires Triplets(ls) && ls != [] && r < 3
    ensures r < |Scan(ls, counter, blockSize, gap).out| && ls[r].att.Some?
    ensures Scan(ls, counter, blockSize, gap).out[r] == Rewrite(ls[r].att.value, NewNumber(counter, blockSize, gap))
  {
    ScanFullTriplet(ls, counter, blockSize, gap);
  }

  /** Past the first triplet, line `k` is line `k - 3` of the scan of the
      rest, with the counter one on. */
  lemma LaterTriplet(ls: seq<Line>, counter: nat, blockSize: int, gap: int, k: nat)
    requires Triplets(ls) && 3 <= k < |ls|
    ensures k < |Scan(ls, counter, blockSize, gap).out| && k - 3 < |Scan(ls[3..], counter + 1, blockSize, gap).out|
    ensures ls[k] == ls[3..][k - 3]
    ensures Scan(ls, counter, blockSize, gap).out[k] == Scan(ls[3..], counter + 1, blockSize, gap).out[k - 3]
  {
    ScanFullTriplet(ls, counter, blockSize, gap);
    ScanTripletsShape(ls[3..], counter + 1, blockSize, gap);
  }

  /** Line `r` of triplet `q` gets the number of counter value `t`, which is
      `q` on from `counter`. */
  lemma {:induction false} TripletNumbered(ls: seq<Line>, counter: nat, blockSize: int, gap: int, q: nat, r: nat, t: nat)
    requires Triplets(ls) && r < 3 && 3 * q + r < |ls| && t == counter + q
    ensures 3 * q + r < |Scan(ls, counter, blockSize, gap).out| && ls[3 * q + r].att.Some?
    ensures Scan(ls, counter, blockSize, gap).out[3 * q + r] == Rewrite(ls[3 * q + r].att.value, NewNumber(t, blockSize, gap))
    decreases q
  {
    if q == 0 {
      FirstTriplet(ls, counter, blockSize, gap, r);
    } else {
      var k := 3 * q + r;
      LaterTriplet(ls, counter, blockSize, gap, k);
      assert k - 3 == 3 * (q - 1) + r;
      TripletNumbered(ls[3..], counter + 1, blockSize, gap, q - 1, r, t);
    }
  }

  /** In a run of complete triplets, line `r` of triplet `q` is renumbered
      with the number of the counter `q` triplets on: `counter + q`. */
  lemma ScanTriplets(ls: seq<Line>, counter: nat, blockSize: int, gap: int, q: nat, r: nat)
    requires Triplets(ls) && r < 3 && 3 * q + r < |ls|
    ensures 3 * q + r < |Scan(ls, counter, blockSize, gap).out| && ls[3 * q + r].att.Some?
    ensures Scan(ls, counter, blockSize, gap).out[3 * q + r]
      == Rewrite(ls[3 * q + r].att.value, NewNumber(counter + q, blockSize, gap))
  {
    TripletNumbered(ls, counter, blockSize, gap, q, r, counter + q);
  }

  /** `process_mbch_file`'s numbering on a file of complete triplets without
      directives: the counter starts at 0 for the file, so line `r` of
      triplet `q` is rebuilt with `calculate_new_block_number(q)`. */
  lemma FileTriplets(lines: seq<string>, blockSize: int, gap: int, q: nat, r: nat)
    requires Triplets(Parse(lines)) && r < 3 && 3 * q + r < |lines|
    ensures 3 * q + r < |Scan(Parse(lines), 0, blockSize, gap).out| && LineMatch(lines[3 * q + r]).Some?
    ensures Scan(Parse(lines), 0, blockSize, gap).out[3 * q + r]
      == Rewrite(LineMatch(lines[3 * q + r]).value, NewNumber(q, blockSize, gap))
  {
    var ls := Parse(lines);
    var k := 3 * q + r;
    TripletNumbered(ls, 0, blockSize, gap, q, r, q);
    ParseAt(lines, k);
    assert ls[k].att == LineMatch(lines[k]);
  }

  /** The remaining lines from index `i`; the loop may step one past the
      end when a triplet is cut short by the end of the file. */
  function From(ls: seq<Line>, i: nat): seq<Line> {
    if i <= |ls| then ls[i..] else []
  }

  /** One turn of the line loop that writes `piece` and moves `i` on by
      `advance` leaves the rest of the scan to the lines from `i + advance`. */
  lemma ScanAdvances(ls: seq<Line>, i: nat, counter: nat, blockSize: int, gap: int, m: Move, advance: nat)
    requires i < |ls| && m == Advance(ls[i..], counter, blockSize, gap)
    requires advance == |m.piece| || (advance == |m.piece| + 1 && i + |m.piece| == |ls|)
    ensures Scan(From(ls, i), counter, blockSize, gap) == Prepend(m.piece, Scan(From(ls, i + advance), m.counter, m.blockSize, m.gap))
  {
    assert From(ls, i) == ls[i..];
    assert ls[i..][|m.piece|..] == From(ls, i + advance);
  }

  /** Turn `j` of the inner `for j in range(3)` loop, with `block` the lines
      rebuilt so far: past the end of the file it stops; otherwise line
      `i + j` is rebuilt when it matches and copied, ending the triplet, when
      it does not. */
  method TripletTurn(lines: seq<string>, ghost parsed: seq<Line>, i: nat, j: nat, num: nat, block: seq<string>)
    returns (block': seq<string>, going: bool)
    requires Matches(lines, parsed) && j < 3 && i + j <= |lines| && |block| == j
    requires block + Triplet(parsed[i + j..], num, 3 - j) == Triplet(parsed[i..], num, 3)
    ensures going ==> j < 2 && i + j < |lines| && |block'| == j + 1 && block' + Triplet(parsed[i + j + 1..], num, 2 - j) == Triplet(parsed[i..], num, 3)
    ensures !going ==> block' == Triplet(parsed[i..], num, 3) && (|block'| == j + 1 || (|block'| == j && i + j == |lines|))
  {
    if i + j == |lines| {
      return block, false;
    }
    var k := i + j;
    assert parsed[k] == ParseLine(lines[k]);
    assert parsed[k..][0] == parsed[k] && parsed[k..][1..] == parsed[k + 1..];
    var m := LineMatch(lines[k]);
    if m.None? {
      return block + [lines[k]], false;
    }
    AppendAssoc(block, [Rewrite(m.value, num)], Triplet(parsed[k + 1..], num, 2 - j));
    block' := block + [Rewrite(m.value, num)];
    going := j < 2;
  }

  lemma AppendAssoc(a: seq<string>, b: seq<string>, c: seq<string>)
    ensures a + (b + c) == (a + b) + c
  {
  }

  /** The inner `for j in range(3)` loop: `advance` is `j + 1` as the
      script computes it, one more than the lines taken when the file ends
      inside the triplet. */
  method RenumberTriplet(lines: seq<string>, ghost parsed: seq<Line>, i: nat, num: nat)
    returns (block: seq<string>, advance: nat)
    requires Matches(lines, parsed) && i < |lines|
    ensures block == Triplet(parsed[i..], num, 3)
    ensures advance == |block| || (advance == |block| + 1 && i + |block| == |lines|)
  {
    block := [];
    var j := 0;
    var going := true;
    while going
      invariant 0 <= j < 3 && i + j <= |lines|
      invariant going ==> |block| == j && block + Triplet(parsed[i + j..], num, 3 - j) == Triplet(parsed[i..], num, 3)
      invariant !going ==> block == Triplet(parsed[i..], num, 3) && (|block| == j + 1 || (|block| == j && i + j == |lines|))
      decreases 3 - j, going
    {
      block, going := TripletTurn(lines, parsed, i, j, num, block);
      if going {
        j := j + 1;
      }
    }
    advance := j + 1;
  }

  /** One turn of the `while` loop at line `i`: the lines it writes, how far
      it moves `i`, and the counter and settings it leaves. */
  method Step(lines: seq<string>, ghost parsed: seq<Line>, i: nat, counter: nat, blockSize: int, gap: int)
    returns (piece: seq<string>, advance: nat, counter': nat, blockSize': int, gap': int)
    requires Matches(lines, parsed) && i < |lines|
    ensures Move(piece, counter', blockSize', gap') == Advance(parsed[i..], counter, blockSize, gap)
    ensures advance == |piece| || (advance == |piece| + 1 && i + |piece| == |lines|)
  {
    assert parsed[i..][0] == parsed[i] == ParseLine(lines[i]);
    var line := lines[i];
    var directive := DirectiveMatch(line);
    if directive.Some? {
      piece, advance := [line], 1;
      counter', blockSize', gap' := 0, directive.value.lastIndex + 1, directive.value.gap;
      return;
    }
    var m := LineMatch(line);
    if m.Some? && m.value.kind == Skill {
      piece, advance := RenumberTriplet(lines, parsed, i, NewNumber(counter, blockSize, gap));
      counter', blockSize', gap' := counter + 1, blockSize, gap;
    } else {
      piece, advance, counter', blockSize', gap' := [line], 1, counter, blockSize, gap;
    }
  }

  // ---------------------------------------------------------------------------
  // Several files in one run

  /** The files written in one run and the settings left at its end. */
  datatype Batch = Batch(outs: seq<seq<string>>, blockSize: int, gap: int)

  /** `main`'s loop over the files: every file starts its counter at 0, and
      the block size and gap one file leaves are the ones the next starts
      with. */
  function RunFiles(files: seq<seq<string>>, blockSize: int, gap: int): (r: Batch)
    ensures |r.outs| == |files|
    decreases |files|
  {
    if files == [] then Batch([], blockSize, gap)
    else
      var p := Scan(Parse(files[0]), 0, blockSize, gap);
      var rest := RunFiles(files[1..], p.blockSize, p.gap);
      Batch([p.out] + rest.outs, rest.blockSize, rest.gap)
  }

  /** A run over `a + b` is the run over `a` followed by the run over `b`
      from the settings `a` leaves. */
  lemma {:induction false} RunFilesAppend(a: seq<seq<string>>, b: seq<seq<string>>, blockSize: int, gap: int)
    ensures var ra := RunFiles(a, blockSize, gap);
      var rb := RunFiles(b, ra.blockSize, ra.gap);
      RunFiles(a + b, blockSize, gap) == Batch(ra.outs + rb.outs, rb.blockSize, rb.gap)
    decreases |a|
  {
    if a == [] {
      assert a + b == b;
    } else {
      var p := Scan(Parse(a[0]), 0, blockSize, gap);
      assert (a + b)[0] == a[0] && (a + b)[1..] == a[1..] + b;
      RunFilesAppend(a[1..], b, p.blockSize, p.gap);
      var ra := RunFiles(a[1..], p.blockSize, p.gap);
      var rb := RunFiles(b, ra.blockSize, ra.gap);
      assert [p.out] + (ra.outs + rb.outs) == ([p.out] + ra.outs) + rb.outs;
    }
  }

  /** No line of `lines` is a `//PBADJUST` directive. */
  predicate NoDirectives(lines: seq<string>) {
    forall j :: 0 <= j < |lines| ==> DirectiveMatch(lines[j]).None?
  }

  lemma NoDirectivesParsed(lines: seq<string>)
    requires NoDirectives(lines)
    ensures forall j :: 0 <= j < |Parse(lines)| ==> Parse(lines)[j].directive.None?
  {
    ParseMatches(lines);
    forall j | 0 <= j < |lines|
      ensures Parse(lines)[j].directive.None?
    {
      assert Parse(lines)[j] == ParseLine(lines[j]);
    }
  }

  /** Without directives, every file is renumbered on its own from the
      counter 0 and the same settings, whatever files came before it, and
      the settings are still those at the end. */
  lemma {:induction false} FilesIndependent(files: seq<seq<string>>, blockSize: int, gap: int)
    requires forall k :: 0 <= k < |files| ==> NoDirectives(files[k])
    ensures RunFiles(files, blockSize, gap).blockSize == blockSize
    ensures RunFiles(files, blockSize, gap).gap == gap
    ensures forall k :: 0 <= k < |files| ==>
      RunFiles(files, blockSize, gap).outs[k] == Scan(Parse(files[k]), 0, blockSize, gap).out
    decreases |files|
  {
    if files != [] {
      NoDirectivesParsed(files[0]);
      NoDirectiveKeepsSettings(Parse(files[0]), 0, blockSize, gap);
      FilesIndependent(files[1..], blockSize, gap);
      var r := RunFiles(files, blockSize, gap);
      forall k | 0 < k < |files|
        ensures r.outs[k] == Scan(Parse(files[k]), 0, blockSize, gap).out
      {
        assert files[1..][k - 1] == files[k];
      }
    }
  }

  /** The files `outs` written so far, followed by the run `r` over the
      rest. */
  function Joined(outs: seq<seq<string>>, r: Batch): Batch {
    r.(outs := outs + r.outs)
  }

  /** The run from file `i` processes file `i`, then the rest from the
      settings it leaves. */
  lemma RunFilesFrom(files: seq<seq<string>>, i: nat, blockSize: int, gap: int)
    requires i < |files|
    ensures var p := Scan(Parse(files[i]), 0, blockSize, gap);
      RunFiles(files[i..], blockSize, gap) == Joined([p.out], RunFiles(files[i + 1..], p.blockSize, p.gap))
  {
    assert files[i..][0] == files[i] && files[i..][1..] == files[i + 1..];
  }

  lemma JoinedCons(outs: seq<seq<string>>, out: seq<string>, r: Batch)
    ensures Joined(outs, Joined([out], r)) == Joined(outs + [out], r)
  {
    assert outs + ([out] + r.outs) == (outs + [out]) + r.outs;
  }

  /** The module-level block size and gap, which outlive one file. */
  class Renumberer {
    var blockSize: int
    var gap: int

    constructor()
      ensures blockSize == DefaultBlockSize && gap == DefaultGap
    {
      blockSize := DefaultBlockSize;
      gap := DefaultGap;
    }

    /** `process_mbch_file` on the lines of one file; the counter starts
        at 0 for every file, and an empty file is left alone. */
    method ProcessFile(lines: seq<string>) returns (out: seq<string>)
      modifies this
      ensures Pass(out, blockSize, gap) == Scan(Parse(lines), 0, old(blockSize), old(gap))
    {
      out := [];
      if lines == [] {
        return;
      }
      ghost var parsed := Parse(lines);
      ParseMatches(lines);
      var i: nat := 0;
      var counter: nat := 0;
      while i < |lines|
        invariant i <= |lines| + 1
        invariant Prepend(out, Scan(From(parsed, i), counter, blockSize, gap)) == Scan(parsed, 0, old(blockSize), old(gap))
        decreases |lines| + 1 - i
      {
        var piece, advance, counter', blockSize', gap' := Step(lines, parsed, i, counter, blockSize, gap);
        ScanAdvances(parsed, i, counter, blockSize, gap, Move(piece, counter', blockSize', gap'), advance);
        PrependTwice(out, piece, Scan(From(parsed, i + advance), counter', blockSize', gap'));
        out := out + piece;
        i := i + advance;
        counter, blockSize, gap := counter', blockSize', gap';
      }
    }

    /** `main` on several files in order: the settings persist from file to
        file. */
    method ProcessFiles(files: seq<seq<string>>) returns (outs: seq<seq<string>>)
      modifies this
      ensures Batch(outs, blockSize, gap) == RunFiles(files, old(blockSize), old(gap))
    {
      outs := [];
      for i := 0 to |files|
        invariant RunFiles(files, old(blockSize), old(gap)) == Joined(outs, RunFiles(files[i..], blockSize, gap))
      {
        RunFilesFrom(files, i, blockSize, gap);
        var out := ProcessFile(files[i]);
        JoinedCons(outs, out, RunFiles(files[i + 1..], blockSize, gap));
        outs := outs + [out];
      }
      assert files[|files|..] == [];
    }
  }
}
