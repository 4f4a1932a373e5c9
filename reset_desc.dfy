/** The description resetter of `resetdesc.py`: the whole file content goes
    through `re.sub(r'description\s+".*?"', 'description ""', content)` with
    DOTALL, so a value may span lines. */
module ResetDesc {
  import opened Text

  const Keyword: string := "description"
  const Blanked: string := "description \"\""

  /** Length of the pattern's match at the start of `s`, if it matches there.
      The keyword is followed by the whole run of whitespace (the character
      after it must be the opening quote) and the lazy `.*?` stops at the
      first later quote. */
  function DescMatch(s: string): (r: Option<nat>)
    ensures r.Some? ==> |Blanked| <= r.value <= |s|
  {
    if !StartsWith(s, Keyword) then None
    else
      var w := SpaceRun(s, 11);
      if w == 0 || 11 + w == |s| || s[11 + w] != '"' then None
      else
        match NextIndex(s, '"', 12 + w)
        case Some(q) => Some(q + 1)
        case None => None
  }

  /** Declarative reading of the pattern: keyword, at least one whitespace
      character, a quote, a quote-free value (newlines allowed), a quote. */
  ghost predicate IsDescSpan(t: string) {
    exists w :: 11 < w < |t| - 1 && t[..11] == Keyword && AllSpace(t[11..w]) &&
                t[w] == '"' && Lacks(t[w + 1..|t| - 1], '"') && t[|t| - 1] == '"'
  }

  /** The substitution, left to right, without overlaps. */
  function ResetAll(s: string): string
    decreases |s|
  {
    if s == [] then []
    else
      match DescMatch(s)
      case Some(n) => Blanked + ResetAll(s[n..])
      case None => [s[0]] + ResetAll(s[1..])
  }

  predicate NoSpanFrom(s: string, i: nat) {
    forall j {:trigger DescMatch(s[j..])} :: i <= j < |s| ==> DescMatch(s[j..]).None?
  }

  // ---------------------------------------------------------------------------

  /** Every match the matcher reports is a span the pattern describes. */
  lemma DescMatchSound(s: string, n: nat)
    requires DescMatch(s) == Some(n)
    ensures IsDescSpan(s[..n])
  {
    var w := 11 + SpaceRun(s, 11);
    SpaceRunSpec(s, 11);
    var q := NextIndex(s, '"', w + 1).value;
    NextIndexSpec(s, '"', w + 1);
    assert n == q + 1;
    DescSpanAt(s, w, n);
  }

  /** A span given by its parts is one the pattern describes. */
  lemma DescSpanAt(s: string, w: nat, n: nat)
    requires 11 < w < n - 1 && n <= |s| && s[..11] == Keyword
    requires SpacesIn(s, 11, w) && s[w] == '"'
    requires Lacks(s[w + 1..n - 1], '"') && s[n - 1] == '"'
    ensures IsDescSpan(s[..n])
  {
    var t := s[..n];
    assert t[..11] == s[..11];
    assert t[11..w] == s[11..w];
    assert t[w + 1..|t| - 1] == s[w + 1..n - 1];
  }

  /** Every span the pattern describes at the start of `s` is the one the
      matcher reports: at most one length can match at a position. */
  lemma DescMatchComplete(s: string, n: nat)
    requires n <= |s| && IsDescSpan(s[..n])
    ensures DescMatch(s) == Some(n)
  {
    var t := s[..n];
    var w :| 11 < w < |t| - 1 && t[..11] == Keyword && AllSpace(t[11..w]) &&
              t[w] == '"' && Lacks(t[w + 1..|t| - 1], '"') && t[|t| - 1] == '"';
    assert s[..11] == t[..11];
    assert SpacesIn(s, 11, w) by {
      forall k | 11 <= k < w
        ensures IsSpace(s[k])
      {
        assert s[k] == t[11..w][k - 11];
      }
    }
    assert s[w + 1..n - 1] == t[w + 1..|t| - 1];
    DescMatchAt(s, w, n);
  }

  /** The matcher on a span given by its parts. */
  lemma DescMatchAt(s: string, w: nat, n: nat)
    requires 11 < w < n - 1 && n <= |s| && s[..11] == Keyword
    requires SpacesIn(s, 11, w) && s[w] == '"'
    requires Lacks(s[w + 1..n - 1], '"') && s[n - 1] == '"'
    ensures DescMatch(s) == Some(n)
  {
    SpaceRunEndsAt(s, 11, w);
    NextIndexFinds(s, '"', w + 1, n - 1);
  }

  /** Without any span, the content is returned unchanged (and so is not
      rewritten on disk). */
  lemma {:induction false} NoSpanUnchanged(s: string, i: nat)
    requires i <= |s| && NoSpanFrom(s, i)
    ensures ResetAll(s[i..]) == s[i..]
    decreases |s| - i
  {
    if i < |s| {
      assert s[i..][1..] == s[i + 1..];
      NoSpanUnchanged(s, i + 1);
    }
  }

  lemma ResetStepSome(s: string, n: nat)
    requires DescMatch(s) == Some(n)
    ensures ResetAll(s) == Blanked + ResetAll(s[n..])
  {
  }

  lemma ResetStepNone(s: string)
    requires s != [] && DescMatch(s).None?
    ensures ResetAll(s) == [s[0]] + ResetAll(s[1..])
  {
  }

  lemma SpanAtStart(s: string, i: nat, n: nat)
    requires i <= |s| && DescMatch(s[i..]) == Some(n)
    ensures ResetAll(s[i..]) == s[i..i] + Blanked + ResetAll(s[i + n..])
  {
    ResetStepSome(s[i..], n);
    assert s[i..][n..] == s[i + n..];
    assert s[i..i] == [];
  }

  lemma NoSpanAt(s: string, k: nat)
    requires k < |s| && DescMatch(s[k..]).None?
    ensures ResetAll(s[k..]) == [s[k]] + ResetAll(s[k + 1..])
  {
    ResetStepNone(s[k..]);
    assert s[k..][1..] == s[k + 1..];
  }

  lemma ConsSlice(s: string, k: nat, i: nat, b: string, t: string)
    requires k < i <= |s|
    ensures [s[k]] + (s[k + 1..i] + b + t) == s[k..i] + b + t
  {
    assert s[k..i] == [s[k]] + s[k + 1..i];
  }

  /** Text before the first span is copied unchanged, and that span is
      replaced by `description ""`. */
  lemma {:induction false} FirstSpanReplaced(s: string, k: nat, i: nat, n: nat)
    requires k <= i <= |s| && DescMatch(s[i..]) == Some(n)
    requires forall j {:trigger DescMatch(s[j..])} :: k <= j < i ==> DescMatch(s[j..]).None?
    ensures ResetAll(s[k..]) == s[k..i] + Blanked + ResetAll(s[i + n..])
    decreases i - k
  {
    if k == i {
      SpanAtStart(s, i, n);
    } else {
      NoSpanAt(s, k);
      FirstSpanReplaced(s, k + 1, i, n);
      ConsSlice(s, k, i, Blanked, ResetAll(s[i + n..]));
    }
  }

  /** Each span is at least as long as its replacement, so the result never
      grows. */
  lemma {:induction false} ResetNeverGrows(s: string)
    ensures |ResetAll(s)| <= |s|
    decreases |s|
  {
    if s != [] {
      match DescMatch(s)
      case Some(n) => ResetNeverGrows(s[n..]);
      case None => ResetNeverGrows(s[1..]);
    }
  }

  /** The blanked form is matched whole and reset to itself. */
  lemma BlankedIsFixed()
    ensures DescMatch(Blanked) == Some(|Blanked|)
    ensures ResetAll(Blanked) == Blanked
  {
    assert SpaceRun(Blanked, 11) == 1 by {
      assert SpaceRun(Blanked, 12) == 0;
    }
    assert NextIndex(Blanked, '"', 13) == Some(13);
    assert Blanked[|Blanked|..] == [];
  }

  // ---------------------------------------------------------------------------
  // A second run changes nothing

  /** The blanked form followed by anything is replaced by itself, and the
      scan goes on right after it. */
  lemma BlankedHead(x: string)
    ensures ResetAll(Blanked + x) == Blanked + ResetAll(x)
  {
    var s := Blanked + x;
    assert s[..11] == Keyword && s[11] == ' ' && s[12] == '"' && s[13] == '"';
    SpaceRunEndsAt(s, 11, 12);
    assert NextIndex(s, '"', 13) == Some(13);
    ResetStepSome(s, |Blanked|);
    assert s[|Blanked|..] == x;
  }

  /** Text without a quote holds no span and is copied. */
  lemma {:induction false} QuoteFreeKept(x: string)
    requires Lacks(x, '"')
    ensures ResetAll(x) == x
    decreases |x|
  {
    if x != [] {
      ResetStepNone(x);
      QuoteFreeKept(x[1..]);
    }
  }

  /** An output that does not start with `d` starts with a copied
      character. */
  lemma FirstCopied(t: string)
    requires ResetAll(t) != [] && ResetAll(t)[0] != 'd'
    ensures t != [] && DescMatch(t).None? && ResetAll(t) == [t[0]] + ResetAll(t[1..])
  {
  }

  /** Slicing a sequence with one more element in front. */
  lemma ConsSplit<T>(x: T, a: seq<T>, m: nat)
    requires 0 < m <= |a| + 1
    ensures ([x] + a)[..m] == [x] + a[..m - 1] && ([x] + a)[m..] == a[m - 1..]
  {
  }

  /** A prefix without `c` starts without `c`, and so does what follows its
      first element. */
  lemma LacksSplit(x: char, a: string, m: nat, c: char)
    requires 0 < m <= |a| + 1 && Lacks(([x] + a)[..m], c)
    ensures x != c && Lacks(a[..m - 1], c)
  {
    ConsSplit(x, a, m);
    var h := a[..m - 1];
    assert ([x] + h)[0] == x;
    forall k | 0 <= k < m - 1
      ensures h[k] != c
    {
      assert ([x] + h)[k + 1] == h[k];
    }
  }

  /** A stretch at the front of the output without a `d` was copied, since
      every replacement starts with one; the output after it is the rest
      reset. */
  lemma {:induction false} CopiedPrefix(t: string, m: nat)
    requires m <= |ResetAll(t)| && Lacks(ResetAll(t)[..m], 'd')
    ensures m <= |t| && ResetAll(t)[..m] == t[..m] && ResetAll(t)[m..] == ResetAll(t[m..])
    decreases m
  {
    if m > 0 {
      var r := ResetAll(t);
      assert r[0] == r[..m][0];
      FirstCopied(t);
      var r1 := ResetAll(t[1..]);
      LacksSplit(t[0], r1, m, 'd');
      CopiedPrefix(t[1..], m - 1);
      ConsSplit(t[0], r1, m);
      ConsSplit(t[0], t[1..], m);
      assert [t[0]] + t[1..] == t;
    }
  }

  /** The head of a match in `[c] + r`: the keyword, its whitespace run and
      the opening quote, none of them a `d` after the first character. */
  lemma MatchHead(c: char, r: string, w: nat)
    requires |r| >= 11 + w
    requires ([c] + r)[..11] == Keyword && SpacesIn([c] + r, 11, 11 + w) && ([c] + r)[11 + w] == '"'
    ensures Lacks(r[..11 + w], 'd')
  {
    var u := [c] + r;
    var h := r[..11 + w];
    forall k | 0 <= k < 11 + w
      ensures h[k] != 'd'
    {
      assert h[k] == u[k + 1];
      if k < 10 {
        assert u[k + 1] == u[..11][k + 1] == Keyword[k + 1];
      }
    }
  }

  /** A copied head: the input holds the same keyword, whitespace run and
      opening quote. */
  lemma HeadCopied(s: string, u: string, w: nat)
    requires s != [] && |u| > 11 + w && u[0] == s[0]
    requires 11 + w <= |s| - 1 && u[1..][..11 + w] == s[1..][..11 + w]
    requires u[..11] == Keyword && SpacesIn(u, 11, 11 + w) && u[11 + w] == '"'
    ensures s[..11] == Keyword && SpacesIn(s, 11, 11 + w) && s[11 + w] == '"'
  {
    forall k | 0 <= k <= 11 + w
      ensures s[k] == u[k]
    {
      if k > 0 {
        assert s[k] == s[1..][..11 + w][k - 1];
        assert u[k] == u[1..][..11 + w][k - 1];
      }
    }
    assert s[..11] == u[..11];
  }

  /** A quote in the reset of `x` comes from a quote in `x`. */
  lemma QuoteFrom(x: string, i: nat)
    requires i < |ResetAll(x)| && ResetAll(x)[i] == '"'
    ensures !Lacks(x, '"')
  {
    if Lacks(x, '"') {
      QuoteFreeKept(x);
    }
  }

  /** A quote in the output past a copied stretch comes from a quote in the
      input past that stretch. */
  lemma QuoteAfter(s: string, e: nat, q: nat)
    requires 0 < e <= |s| && e <= q
    requires e - 1 <= |ResetAll(s[1..])| && ResetAll(s[1..])[e - 1..] == ResetAll(s[e..])
    requires q < |ResetAll(s[1..])| + 1 && ([s[0]] + ResetAll(s[1..]))[q] == '"'
    ensures !Lacks(s[e..], '"')
  {
    var r := ResetAll(s[1..]);
    assert ([s[0]] + r)[q] == r[q - 1] == r[e - 1..][q - e];
    QuoteFrom(s[e..], q - e);
  }

  /** A span at the front of `[s[0]] + ResetAll(s[1..])` has its keyword,
      whitespace run and opening quote copied from `s`, and a quote after
      them that comes from a quote in `s`. */
  lemma SpanInOutput(s: string) returns (w: nat)
    requires s != [] && DescMatch([s[0]] + ResetAll(s[1..])).Some?
    ensures 12 + w <= |s| && w > 0 && s[..11] == Keyword && SpacesIn(s, 11, 11 + w) && s[11 + w] == '"'
    ensures !Lacks(s[12 + w..], '"')
  {
    var r := ResetAll(s[1..]);
    var u := [s[0]] + r;
    w := SpaceRun(u, 11);
    SpaceRunSpec(u, 11);
    var q := NextIndex(u, '"', 12 + w).value;
    MatchHead(s[0], r, w);
    CopiedPrefix(s[1..], 11 + w);
    assert u[1..] == r;
    HeadCopied(s, u, w);
    assert s[1..][11 + w..] == s[12 + w..];
    QuoteAfter(s, 12 + w, q);
  }

  /** Where the scan found no span, the output has none either: the head of
      a span in the output was copied from the input, and a quote after it
      in the output comes from a quote after it in the input. */
  lemma NoMatchKept(s: string)
    requires s != [] && DescMatch(s).None?
    ensures DescMatch([s[0]] + ResetAll(s[1..])).None?
  {
    if DescMatch([s[0]] + ResetAll(s[1..])).Some? {
      var w := SpanInOutput(s);
      SpaceRunEndsAt(s, 11, 11 + w);
      NextIndexSpec(s, '"', 12 + w);
      assert false;
    }
  }

  /** Resetting is idempotent: running the script on a file it has already
      reset finds nothing to change, so `modified` is false and the file is
      not rewritten. */
  lemma {:induction false} ResetIdempotent(s: string)
    ensures ResetAll(ResetAll(s)) == ResetAll(s)
    decreases |s|
  {
    if s != [] {
      match DescMatch(s)
      case Some(n) =>
        ResetIdempotent(s[n..]);
        BlankedHead(ResetAll(s[n..]));
      case None =>
        ResetIdempotent(s[1..]);
        NoMatchKept(s);
        var u := [s[0]] + ResetAll(s[1..]);
        ResetStepNone(u);
        assert u[1..] == ResetAll(s[1..]);
    }
  }

  /** A whole `description "<value>"` span is blanked, whatever the value
      holds short of a quote; in particular it may span several lines. */
  lemma ValueBlanked(v: string)
    requires Lacks(v, '"')
    ensures ResetAll(Keyword + " \"" + v + "\"") == Blanked
  {
    var s := Keyword + " \"" + v + "\"";
    assert s[..11] == Keyword;
    assert s[11] == ' ' && s[12] == '"' && s[|s| - 1] == '"';
    assert s[13..|s| - 1] == v;
    SpaceRunEndsAt(s, 11, 12);
    NextIndexFinds(s, '"', 13, |s| - 1);
    ResetStepSome(s, |s|);
    assert s[|s|..] == [];
  }

  /** There is no word boundary before the keyword: a character glued to it
      does not protect the span. */
  lemma NoWordBoundary(c: char, v: string)
    requires c != Keyword[0] && Lacks(v, '"')
    ensures ResetAll([c] + (Keyword + " \"" + v + "\"")) == [c] + Blanked
  {
    var u := Keyword + " \"" + v + "\"";
    var s := [c] + u;
    assert s[0] == c;
    ResetStepNone(s);
    assert s[1..] == u;
    ValueBlanked(v);
  }

  /** The keyword not followed by whitespace is left alone, and so is an
      opening quote with no later quote. */
  lemma UnmatchedLeftAlone(v: string)
    ensures DescMatch(Keyword + "\"" + v) == None
    ensures Lacks(v, '"') ==> DescMatch(Keyword + " \"" + v) == None
  {
    var s := Keyword + "\"" + v;
    assert s[..11] == Keyword && s[11] == '"';
    var t := Keyword + " \"" + v;
    assert t[..11] == Keyword && t[11] == ' ' && t[12] == '"';
    assert t[13..] == v;
    SpaceRunEndsAt(t, 11, 12);
  }
}
