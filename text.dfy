/** Character classes and the few string operations of Python's `str` that the
    maintenance scripts rely on, restricted to ASCII. */
module Text {

  datatype Option<T> = None | Some(value: T)

  /** Whitespace as `str.isspace`, `str.strip` and the regex class `\s` see it
      on ASCII: tab, line feed, vertical tab, form feed, carriage return, the
      four information separators 0x1C..0x1F, and space. */
  predicate IsSpace(c: char) {
    c == ' ' || ('\t' <= c <= '\r') || ('\U{1C}' <= c <= '\U{1F}')
  }

  /** The regex class `\d` on ASCII. */
  predicate IsDigit(c: char) {
    '0' <= c <= '9'
  }

  /** The regex class `\w` on ASCII: letters, digits and the underscore. */
  predicate IsWordChar(c: char) {
    ('a' <= c <= 'z') || ('A' <= c <= 'Z') || IsDigit(c) || c == '_'
  }

  predicate AllSpace(s: string) {
    forall i :: 0 <= i < |s| ==> IsSpace(s[i])
  }

  predicate AllDigits(s: string) {
    forall i :: 0 <= i < |s| ==> IsDigit(s[i])
  }

  /** Every character of `s[i..j]` is whitespace, stated on indices. */
  predicate SpacesIn(s: string, i: nat, j: nat)
    requires i <= j <= |s|
  {
    forall k :: i <= k < j ==> IsSpace(s[k])
  }

  /** Every character of `s[i..j]` is a digit, stated on indices. */
  predicate DigitsIn(s: string, i: nat, j: nat)
    requires i <= j <= |s|
  {
    forall k :: i <= k < j ==> IsDigit(s[k])
  }

  /** `not s.strip()`: the line holds nothing but whitespace. */
  predicate IsBlank(s: string) {
    AllSpace(s)
  }

  predicate StartsWith(s: string, prefix: string) {
    |prefix| <= |s| && s[..|prefix|] == prefix
  }

  predicate EndsWith(s: string, suffix: string) {
    |suffix| <= |s| && s[|s| - |suffix|..] == suffix
  }

  predicate OccursAt(s: string, pat: string, i: int) {
    0 <= i && i + |pat| <= |s| && s[i..i + |pat|] == pat
  }

  /** `lit` occurs at index `i`, compared one character at a time. */
  predicate LiteralAt(s: string, lit: string, i: nat)
    ensures LiteralAt(s, lit, i) ==> i + |lit| <= |s|
    decreases |lit|
  {
    if lit == [] then i <= |s|
    else i < |s| && s[i] == lit[0] && LiteralAt(s, lit[1..], i + 1)
  }

  /** Python's `pat in s`. */
  predicate Contains(s: string, pat: string) {
    exists i :: 0 <= i <= |s| - |pat| && OccursAt(s, pat, i)
  }

  /** Number of characters equal to `c`: `s.count(c)` for a one-character `c`. */
  function Count(s: string, c: char): (n: nat)
    ensures n <= |s|
    ensures n == 0 <==> (forall i :: 0 <= i < |s| ==> s[i] != c)
  {
    if s == [] then 0 else (if s[0] == c then 1 else 0) + Count(s[1..], c)
  }

  /** `c * n` for a character `c`; Python gives the empty string for n <= 0. */
  function Repeat(c: char, n: int): (r: string)
    ensures |r| == if n < 0 then 0 else n
    ensures forall i :: 0 <= i < |r| ==> r[i] == c
  {
    if n <= 0 then [] else seq(n, _ => c)
  }

  /** Length of the run of whitespace that starts at index `i`. */
  function SpaceRun(s: string, i: nat): (n: nat)
    requires i <= |s|
    ensures i + n <= |s|
    decreases |s| - i
  {
    if i < |s| && IsSpace(s[i]) then 1 + SpaceRun(s, i + 1) else 0
  }

  /** The run is whitespace and cannot be extended. */
  lemma {:induction false} SpaceRunSpec(s: string, i: nat)
    requires i <= |s|
    ensures SpacesIn(s, i, i + SpaceRun(s, i))
    ensures i + SpaceRun(s, i) == |s| || !IsSpace(s[i + SpaceRun(s, i)])
    decreases |s| - i
  {
    if i < |s| && IsSpace(s[i]) {
      SpaceRunSpec(s, i + 1);
    }
  }

  /** Length of the run of decimal digits that starts at index `i`. */
  function DigitRun(s: string, i: nat): (n: nat)
    requires i <= |s|
    ensures i + n <= |s|
    decreases |s| - i
  {
    if i < |s| && IsDigit(s[i]) then 1 + DigitRun(s, i + 1) else 0
  }

  /** The run is digits and cannot be extended. */
  lemma {:induction false} DigitRunSpec(s: string, i: nat)
    requires i <= |s|
    ensures DigitsIn(s, i, i + DigitRun(s, i))
    ensures i + DigitRun(s, i) == |s| || !IsDigit(s[i + DigitRun(s, i)])
    decreases |s| - i
  {
    if i < |s| && IsDigit(s[i]) {
      DigitRunSpec(s, i + 1);
    }
  }

  /** `s.rstrip()`: the longest prefix that does not end in whitespace. */
  function RStrip(s: string): (r: string)
    ensures |r| <= |s| && r == s[..|r|]
  {
    if s != [] && IsSpace(s[|s| - 1]) then RStrip(s[..|s| - 1]) else s
  }

  /** What `rstrip` removes is whitespace, and what it keeps does not end in
      whitespace. */
  lemma {:induction false} RStripSpec(s: string)
    ensures SpacesIn(s, |RStrip(s)|, |s|)
    ensures RStrip(s) == [] || !IsSpace(RStrip(s)[|RStrip(s)| - 1])
  {
    if s != [] && IsSpace(s[|s| - 1]) {
      RStripSpec(s[..|s| - 1]);
    }
  }

  /** `s.lstrip()`: the longest suffix that does not start with whitespace. */
  function LStrip(s: string): (r: string)
    ensures |r| <= |s| && r == s[|s| - |r|..]
  {
    if s != [] && IsSpace(s[0]) then LStrip(s[1..]) else s
  }

  /** What `lstrip` removes is whitespace, and what it keeps does not start
      with whitespace. */
  lemma {:induction false} LStripSpec(s: string)
    ensures SpacesIn(s, 0, |s| - |LStrip(s)|)
    ensures LStrip(s) == [] || !IsSpace(LStrip(s)[0])
  {
    if s != [] && IsSpace(s[0]) {
      LStripSpec(s[1..]);
    }
  }

  /** `s.strip()`. */
  function Strip(s: string): string {
    LStrip(RStrip(s))
  }

  /** Python's `s.replace(pat, rep)` for a non-empty `pat`: occurrences are
      found left to right and never overlap. */
  function ReplaceAll(s: string, pat: string, rep: string): string
    requires pat != []
    decreases |s|
  {
    if s == [] then []
    else if StartsWith(s, pat) then rep + ReplaceAll(s[|pat|..], pat, rep)
    else [s[0]] + ReplaceAll(s[1..], pat, rep)
  }

  /** No character of `s` is `c`. */
  predicate Lacks(s: string, c: char) {
    forall k :: 0 <= k < |s| ==> s[k] != c
  }

  /** Index of the first `c` at or after `j`: `s.find(c, j)`. */
  function NextIndex(s: string, c: char, j: nat): (r: Option<nat>)
    requires j <= |s|
    ensures r.Some? ==> j <= r.value < |s| && s[r.value] == c
    decreases |s| - j
  {
    if j == |s| then None
    else if s[j] == c then Some(j)
    else NextIndex(s, c, j + 1)
  }

  /** `n` copies of `s` laid end to end. */
  function Copies(s: string, n: nat): string {
    if n == 0 then [] else s + Copies(s, n - 1)
  }

  function DigitChar(d: nat): (c: char)
    requires d < 10
    ensures IsDigit(c)
  {
    ['0', '1', '2', '3', '4', '5', '6', '7', '8', '9'][d]
  }

  function DigitValue(c: char): nat
    requires IsDigit(c)
  {
    (c as int - '0' as int) as nat
  }

  /** `int(s)` for a string of ASCII digits. */
  function DigitsValue(s: string): nat
    requires AllDigits(s)
  {
    if s == [] then 0 else 10 * DigitsValue(s[..|s| - 1]) + DigitValue(s[|s| - 1])
  }

  /** `str(n)`: decimal digits, no leading zero. */
  function NatToString(n: nat): (r: string)
    ensures r != [] && AllDigits(r)
    ensures |r| > 1 ==> r[0] != '0'
  {
    if n < 10 then [DigitChar(n)] else NatToString(n / 10) + [DigitChar(n % 10)]
  }

  // ---------------------------------------------------------------------------
  // Properties

  /** `str` and `int` are inverse on naturals. */
  lemma {:induction false} NatToStringRoundTrip(n: nat)
    ensures DigitsValue(NatToString(n)) == n
  {
    var r := NatToString(n);
    if n < 10 {
      assert r[..0] == [];
    } else {
      NatToStringRoundTrip(n / 10);
      assert r[..|r| - 1] == NatToString(n / 10);
    }
  }

  /** A run of whitespace followed by a non-space character is the whole run. */
  lemma {:induction false} SpaceRunEndsAt(s: string, i: nat, j: nat)
    requires i <= j < |s| && SpacesIn(s, i, j) && !IsSpace(s[j])
    ensures SpaceRun(s, i) == j - i
    decreases j - i
  {
    if i < j {
      SpaceRunEndsAt(s, i + 1, j);
    }
  }

  /** A run of digits followed by a non-digit is the whole run. */
  lemma {:induction false} DigitRunEndsAt(s: string, i: nat, j: nat)
    requires i <= j <= |s| && DigitsIn(s, i, j) && (j == |s| || !IsDigit(s[j]))
    ensures DigitRun(s, i) == j - i
    decreases j - i
  {
    if i < j {
      DigitRunEndsAt(s, i + 1, j);
    }
  }

  /** A whitespace run that reaches the end of the string. */
  lemma {:induction false} SpaceRunToEnd(s: string, i: nat)
    requires i <= |s| && SpacesIn(s, i, |s|)
    ensures SpaceRun(s, i) == |s| - i
    decreases |s| - i
  {
    if i < |s| {
      SpaceRunToEnd(s, i + 1);
    }
  }

  /** Trailing whitespace after a core that ends in a non-space is exactly
      what `rstrip` removes. */
  lemma {:induction false} RStripOf(core: string, post: string)
    requires AllSpace(post) && (core == [] || !IsSpace(core[|core| - 1]))
    ensures RStrip(core + post) == core
    decreases |post|
  {
    if post == [] {
      assert core + post == core;
    } else {
      var s := core + post;
      assert s[..|s| - 1] == core + post[..|post| - 1];
      RStripOf(core, post[..|post| - 1]);
    }
  }

  /** Leading whitespace before a core that starts with a non-space is
      exactly what `lstrip` removes. */
  lemma {:induction false} LStripOf(pre: string, core: string)
    requires AllSpace(pre) && (core == [] || !IsSpace(core[0]))
    ensures LStrip(pre + core) == core
    decreases |pre|
  {
    if pre == [] {
      assert pre + core == core;
    } else {
      assert (pre + core)[1..] == pre[1..] + core;
      LStripOf(pre[1..], core);
    }
  }

  /** `strip` of a core padded with whitespace on both sides. */
  lemma StripOf(pre: string, core: string, post: string)
    requires AllSpace(pre) && AllSpace(post)
    requires core == [] || (!IsSpace(core[0]) && !IsSpace(core[|core| - 1]))
    ensures Strip(pre + core + post) == core
  {
    if core == [] {
      assert pre + core + post == [] + (pre + post);
      RStripOf([], pre + post);
      assert LStrip([]) == [];
    } else {
      RStripOf(pre + core, post);
      LStripOf(pre, core);
    }
  }

  /** The first character after the leading whitespace is `c`: the same as
      `s.strip().startswith(c)` (see `StripHead`). */
  predicate LeadsWith(s: string, c: char) {
    var n := SpaceRun(s, 0);
    n < |s| && s[n] == c
  }

  /** The step of `StripHead` with the facts about `rstrip` and `lstrip`
      spelled out: `r` is `s.rstrip()` and `t` is `r.lstrip()`. */
  lemma StripCore(s: string, r: string, t: string, n: nat)
    requires |r| <= |s| && r == s[..|r|] && SpacesIn(s, |r|, |s|)
    requires |t| <= |r| && t == r[|r| - |t|..] && SpacesIn(r, 0, |r| - |t|)
    requires t == [] || !IsSpace(t[0])
    requires n < |s| && SpacesIn(s, 0, n) && !IsSpace(s[n])
    ensures t != [] && t[0] == s[n]
  {
    assert t[0] == r[n];
  }

  lemma StripNonBlank(s: string)
    requires SpaceRun(s, 0) < |s|
    ensures Strip(s) != [] && Strip(s)[0] == s[SpaceRun(s, 0)]
  {
    var n := SpaceRun(s, 0);
    var r := RStrip(s);
    var t := LStrip(r);
    SpaceRunSpec(s, 0);
    RStripSpec(s);
    LStripSpec(r);
    StripCore(s, r, t, n);
  }

  lemma StripBlank(s: string)
    requires SpaceRun(s, 0) == |s|
    ensures Strip(s) == []
  {
    SpaceRunSpec(s, 0);
    RStripSpec(s);
  }

  /** `strip` is empty exactly for blank strings, and otherwise starts at the
      first non-space character. */
  lemma StripHead(s: string)
    ensures Strip(s) == [] <==> SpaceRun(s, 0) == |s|
    ensures SpaceRun(s, 0) < |s| ==> Strip(s)[0] == s[SpaceRun(s, 0)]
  {
    if SpaceRun(s, 0) < |s| {
      StripNonBlank(s);
    } else {
      StripBlank(s);
    }
  }

  lemma LeadsWithIsStripStart(s: string, c: char)
    ensures LeadsWith(s, c) <==> StartsWith(Strip(s), [c])
  {
    StripHead(s);
  }

  /** The character-by-character comparison is the slice comparison. */
  lemma {:induction false} LiteralAtIsOccurs(s: string, lit: string, i: nat)
    ensures LiteralAt(s, lit, i) <==> OccursAt(s, lit, i)
    decreases |lit|
  {
    if lit != [] && i < |s| {
      LiteralAtIsOccurs(s, lit[1..], i + 1);
      if i + |lit| <= |s| {
        assert s[i..i + |lit|] == [s[i]] + s[i + 1..i + 1 + |lit[1..]|];
        assert lit == [lit[0]] + lit[1..];
      }
    }
  }

  /** An occurrence either starts the string or lies in its tail. */
  lemma ContainsStep(s: string, pat: string)
    requires pat != []
    ensures Contains(s, pat) <==> StartsWith(s, pat) || (s != [] && Contains(s[1..], pat))
  {
    if Contains(s, pat) && !StartsWith(s, pat) {
      var i :| 0 <= i <= |s| - |pat| && OccursAt(s, pat, i);
      assert i != 0;
      assert OccursAt(s[1..], pat, i - 1) by {
        assert s[1..][i - 1..i - 1 + |pat|] == s[i..i + |pat|];
      }
    }
    if s != [] && Contains(s[1..], pat) {
      var i :| 0 <= i <= |s[1..]| - |pat| && OccursAt(s[1..], pat, i);
      assert OccursAt(s, pat, i + 1) by {
        assert s[1..][i..i + |pat|] == s[i + 1..i + 1 + |pat|];
      }
    }
    if StartsWith(s, pat) {
      assert OccursAt(s, pat, 0);
    }
  }

  lemma ReplaceAllStepMatch(s: string, pat: string, rep: string)
    requires pat != [] && StartsWith(s, pat)
    ensures ReplaceAll(s, pat, rep) == rep + ReplaceAll(s[|pat|..], pat, rep)
  {
  }

  lemma ReplaceAllStepSkip(s: string, pat: string, rep: string)
    requires pat != [] && s != [] && !StartsWith(s, pat)
    ensures ReplaceAll(s, pat, rep) == [s[0]] + ReplaceAll(s[1..], pat, rep)
  {
  }

  /** With no occurrence of the pattern, `replace` is the identity. */
  lemma {:induction false} ReplaceAllAbsent(s: string, pat: string, rep: string)
    requires pat != [] && !Contains(s, pat)
    ensures ReplaceAll(s, pat, rep) == s
    decreases |s|
  {
    ContainsStep(s, pat);
    if s != [] {
      ReplaceAllAbsent(s[1..], pat, rep);
      assert s == [s[0]] + s[1..];
    }
  }

  /** Where the pattern occurs, the replacement occurs in the result. */
  lemma {:induction false} ReplaceAllPlacesReplacement(s: string, pat: string, rep: string)
    requires pat != [] && Contains(s, pat)
    ensures Contains(ReplaceAll(s, pat, rep), rep)
    decreases |s|
  {
    ContainsStep(s, pat);
    var r := ReplaceAll(s, pat, rep);
    if StartsWith(s, pat) {
      assert OccursAt(r, rep, 0);
    } else {
      ReplaceAllPlacesReplacement(s[1..], pat, rep);
      var t := ReplaceAll(s[1..], pat, rep);
      var i :| 0 <= i <= |t| - |rep| && OccursAt(t, rep, i);
      assert r == [s[0]] + t;
      assert OccursAt(r, rep, i + 1) by {
        assert r[i + 1..i + 1 + |rep|] == t[i..i + |rep|];
      }
    }
  }

  /** Every copy of the pattern is replaced, not only the first one. */
  lemma {:induction false} ReplaceAllCopies(pat: string, rep: string, n: nat)
    requires pat != []
    ensures ReplaceAll(Copies(pat, n), pat, rep) == Copies(rep, n)
  {
    if n > 0 {
      var s := Copies(pat, n);
      assert s[..|pat|] == pat;
      assert s[|pat|..] == Copies(pat, n - 1);
      ReplaceAllCopies(pat, rep, n - 1);
    }
  }

  /** `replace` never makes a string longer when the replacement is no longer
      than the pattern. */
  lemma {:induction false} ReplaceAllShrinks(s: string, pat: string, rep: string)
    requires pat != [] && |rep| <= |pat|
    ensures |ReplaceAll(s, pat, rep)| <= |s|
    decreases |s|
  {
    if s != [] {
      if StartsWith(s, pat) {
        ReplaceAllShrinks(s[|pat|..], pat, rep);
      } else {
        ReplaceAllShrinks(s[1..], pat, rep);
      }
    }
  }

  /** No `c` is skipped on the way to the index found. */
  lemma {:induction false} NextIndexSpec(s: string, c: char, j: nat)
    requires j <= |s|
    ensures NextIndex(s, c, j).Some? ==> Lacks(s[j..NextIndex(s, c, j).value], c)
    ensures NextIndex(s, c, j).None? ==> Lacks(s[j..], c)
    decreases |s| - j
  {
    if j < |s| && s[j] != c {
      NextIndexSpec(s, c, j + 1);
      var r := NextIndex(s, c, j + 1);
      assert r.Some? ==> s[j..r.value] == [s[j]] + s[j + 1..r.value];
      assert s[j..] == [s[j]] + s[j + 1..];
    }
  }

  /** The first `c` at or after `j` is the one found. */
  lemma {:induction false} NextIndexFinds(s: string, c: char, j: nat, q: nat)
    requires j <= q < |s| && s[q] == c && Lacks(s[j..q], c)
    ensures NextIndex(s, c, j) == Some(q)
    decreases q - j
  {
    if j < q {
      assert s[j] == s[j..q][0];
      assert s[j + 1..q] == s[j..q][1..];
      NextIndexFinds(s, c, j + 1, q);
    }
  }

  /** `not s.strip()` holds exactly for the blank strings. */
  lemma BlankIsStripEmpty(s: string)
    ensures IsBlank(s) <==> Strip(s) == []
  {
    StripHead(s);
    SpaceRunSpec(s, 0);
    if IsBlank(s) {
      SpaceRunToEnd(s, 0);
    }
  }

  /** An occurrence inside an occurrence is an occurrence. */
  lemma ContainsTrans(a: string, b: string, c: string)
    requires Contains(a, b) && Contains(b, c)
    ensures Contains(a, c)
  {
    var i :| 0 <= i <= |a| - |b| && OccursAt(a, b, i);
    var j :| 0 <= j <= |b| - |c| && OccursAt(b, c, j);
    forall k | 0 <= k < |c|
      ensures a[i + j + k] == c[k]
    {
      assert a[i + j + k] == a[i..i + |b|][j + k] == b[j..j + |c|][k];
    }
    assert a[i + j..i + j + |c|] == c;
    assert OccursAt(a, c, i + j);
  }

  /** Where the pattern starts nowhere in `s[k..i]`, that stretch is copied
      unchanged. */
  lemma {:induction false} ReplaceAllSkips(s: string, pat: string, rep: string, k: nat, i: nat)
    requires pat != [] && k <= i <= |s|
    requires forall j :: k <= j < i ==> !StartsWith(s[j..], pat)
    ensures ReplaceAll(s[k..], pat, rep) == s[k..i] + ReplaceAll(s[i..], pat, rep)
    decreases i - k
  {
    if k < i {
      ReplaceAllStepSkip(s[k..], pat, rep);
      assert s[k..][1..] == s[k + 1..];
      ReplaceAllSkips(s, pat, rep, k + 1, i);
      SliceCons(s, k, i, ReplaceAll(s[i..], pat, rep));
    }
  }

  lemma SliceCons(s: string, k: nat, i: nat, t: string)
    requires k < i <= |s|
    ensures [s[k]] + (s[k + 1..i] + t) == s[k..i] + t
  {
    assert s[k..i] == [s[k]] + s[k + 1..i];
  }

  /** When the first occurrence of the pattern is at `i`, the text before it
      is copied and that occurrence replaced. */
  lemma ReplaceAllFirst(s: string, pat: string, rep: string, i: nat, e: nat)
    requires pat != [] && OccursAt(s, pat, i) && e == i + |pat|
    requires forall j :: 0 <= j < i ==> !StartsWith(s[j..], pat)
    ensures ReplaceAll(s, pat, rep) == s[..i] + (rep + ReplaceAll(s[e..], pat, rep))
  {
    ReplaceAllSkips(s, pat, rep, 0, i);
    assert s[0..] == s;
    assert s[i..][..|pat|] == pat;
    ReplaceAllStepMatch(s[i..], pat, rep);
    assert s[i..][|pat|..] == s[e..];
  }
}
