/** The boilerplate injector of `emptypbui.py`: unless the content already
    mentions `isCustomBuild`, the first `ClassInfo { ... }` span found by
    `re.search(r'(ClassInfo\s*\{)(.*?)(\}\s*)', content, re.DOTALL)` gets a
    fixed block of custom-build settings appended to its inner text, and
    every copy of the span's text in the content is replaced by the result. */
module EmptyPbui {
  import opened Text

  /** The key whose presence anywhere in the content stops the injection. */
  const Marker: string := "isCustomBuild"

  const Head: string := "ClassInfo"

  /** The inserted settings, one `key<TAB>value` per line, with no final line
      feed; its first key is the marker. */
  const Fragment: string := Marker + FragmentTail

  const FragmentTail: string :=
    "\t1\n" +
    "mbPoints\t0\n" +
    "hasCustomSpec\t3\n" +
    "isOnlyOneSpec\t1\n" +
    "customSpecName_1\t\"\"\n" +
    "customSpecIcon_1\t\"gfx/sup_builds/null/sup_empty\"\n" +
    "customSpecDesc_1\t\"\"\n" +
    "customSpecName_2\t\"\"\n" +
    "customSpecIcon_2\t\"gfx/sup_builds/null/sup_empty\"\n" +
    "customSpecDesc_2\t\"\"\n" +
    "customSpecName_3\t\"\"\n" +
    "customSpecIcon_3\t\"gfx/sup_builds/null/sup_empty\"\n" +
    "customSpecDesc_3\t\"\"\n" +
    "c_att_skill_0\tMB_ATT_INVALID\n" +
    "c_att_names_0\t\"\"\n" +
    "c_att_ranks_0\t-1"

  /** A match of the pattern: it starts at `start`; the first group
      (`ClassInfo`, whitespace, `{`) ends at `open`; the second group (the
      inner text) ends at `close`, the index of the closing `}`; the third
      group (`}` and the whitespace after it) ends at `end`. */
  datatype Span = Span(start: nat, open: nat, close: nat, end: nat)

  predicate Within(m: Span, s: string) {
    m.start < m.open <= m.close < m.end <= |s|
  }

  /** The match of `head\s*\{(.*?)\}\s*` starting at index `p`, if there is
      one; the script's pattern has `ClassInfo` as its head. `\s*` is greedy and
      only a `{` may follow it, so the first group takes the whole whitespace
      run; the lazy `.*?` (which crosses lines under DOTALL) stops at the first
      `}`; the final `\s*` takes the whole whitespace run after it. */
  function SpanAt(s: string, head: string, p: nat): (r: Option<Span>)
    requires p <= |s|
    ensures r.Some? ==> r.value.start == p && Within(r.value, s)
  {
    if !LiteralAt(s, head, p) then None
    else
      var b := p + |head| + SpaceRun(s, p + |head|);
      if b == |s| || s[b] != '{' then None
      else
        match NextIndex(s, '}', b + 1)
        case None => None
        case Some(q) => Some(Span(p, b + 1, q, q + 1 + SpaceRun(s, q + 1)))
  }

  /** `re.search` from index `p`: the match at the leftmost position that has
      one. */
  function FindSpan(s: string, head: string, p: nat): (r: Option<Span>)
    requires p <= |s|
    ensures r.Some? ==> p <= r.value.start && Within(r.value, s)
    decreases |s| - p
  {
    match SpanAt(s, head, p)
    case Some(m) => Some(m)
    case None => if p == |s| then None else FindSpan(s, head, p + 1)
  }

  /** The inner text, followed by a line feed when it holds something other
      than whitespace and does not already end with one. */
  function Padded(inner: string): string {
    if Strip(inner) != [] && !EndsWith(inner, "\n") then inner + "\n" else inner
  }

  /** The replacement for a span with groups `g1`, `inner` and `g3`, with
      `frag` inserted (the script inserts `Fragment`). */
  function NewBlock(g1: string, inner: string, frag: string, g3: string): string {
    g1 + Padded(inner) + frag + "\n" + g3
  }

  /** The text of span `m`: `match.group(0)`. */
  function Whole(content: string, m: Span): string
    requires Within(m, content)
  {
    content[m.start..m.end]
  }

  /** The new block for span `m`, from its three groups. */
  function Block(content: string, m: Span, frag: string): string
    requires Within(m, content)
  {
    NewBlock(content[m.start..m.open], content[m.open..m.close], frag, content[m.close..m.end])
  }

  /** Every copy of the text of span `m` replaced by its new block. */
  function Rewrite(content: string, m: Span, frag: string): string
    requires Within(m, content)
  {
    ReplaceAll(content, Whole(content, m), Block(content, m, frag))
  }

  /** The content transform: `None` when the file is left as it is (the
      marker is present, or there is no span), otherwise the new content. */
  function Inject(content: string): Option<string> {
    if Contains(content, Marker) then None
    else
      match FindSpan(content, Head, 0)
      case None => None
      case Some(m) => Some(Rewrite(content, m, Fragment))
  }

  /** The pattern up to its closing brace: the head, whitespace, `{`, inner
      text free of `}`, and `}`. */
  ghost predicate Opened(s: string, head: string, m: Span) {
    m.start + |head| < m.open <= m.close < m.end <= |s| &&
    OccursAt(s, head, m.start) && SpacesIn(s, m.start + |head|, m.open - 1) && s[m.open - 1] == '{' &&
    Lacks(s[m.open..m.close], '}') && s[m.close] == '}'
  }

  /** Declarative reading of a match: the pattern up to its closing brace,
      then the whole whitespace run after it. */
  ghost predicate IsSpan(s: string, head: string, m: Span) {
    Opened(s, head, m) && SpacesIn(s, m.close + 1, m.end) && (m.end == |s| || !IsSpace(s[m.end]))
  }

  // ---------------------------------------------------------------------------
  // The span

  /** Every match the finder reports is a span the pattern describes. */
  lemma SpanAtSound(s: string, head: string, p: nat)
    requires p <= |s| && SpanAt(s, head, p).Some?
    ensures IsSpan(s, head, SpanAt(s, head, p).value)
  {
    SpanAtOpened(s, head, p);
    SpaceRunSpec(s, SpanAt(s, head, p).value.close + 1);
  }

  lemma SpanAtOpened(s: string, head: string, p: nat)
    requires p <= |s| && SpanAt(s, head, p).Some?
    ensures Opened(s, head, SpanAt(s, head, p).value)
  {
    LiteralAtIsOccurs(s, head, p);
    var b := p + |head| + SpaceRun(s, p + |head|);
    SpaceRunSpec(s, p + |head|);
    NextIndexSpec(s, '}', b + 1);
  }

  /** Wherever the pattern holds up to a closing brace, the finder reports a
      match with the same groups up to that brace. */
  lemma OpenedMatches(s: string, head: string, m: Span)
    requires Opened(s, head, m)
    ensures SpanAt(s, head, m.start) == Some(Span(m.start, m.open, m.close, m.close + 1 + SpaceRun(s, m.close + 1)))
  {
    LiteralAtIsOccurs(s, head, m.start);
    SpaceRunEndsAt(s, m.start + |head|, m.open - 1);
    NextIndexFinds(s, '}', m.open, m.close);
  }

  /** Every span the pattern describes is the one the finder reports at its
      start: at most one match begins at a position. */
  lemma SpanAtComplete(s: string, head: string, m: Span)
    requires IsSpan(s, head, m)
    ensures SpanAt(s, head, m.start) == Some(m)
  {
    OpenedMatches(s, head, m);
    if m.end == |s| {
      SpaceRunToEnd(s, m.close + 1);
    } else {
      SpaceRunEndsAt(s, m.close + 1, m.end);
    }
  }

  /** The search reports the first position with a match. */
  lemma FindSpanSpec(s: string, head: string, p: nat)
    requires p <= |s|
    ensures FindSpan(s, head, p).Some? ==>
              SpanAt(s, head, FindSpan(s, head, p).value.start) == FindSpan(s, head, p) &&
              forall q :: p <= q < FindSpan(s, head, p).value.start ==> SpanAt(s, head, q).None?
    ensures FindSpan(s, head, p).None? ==> forall q :: p <= q <= |s| ==> SpanAt(s, head, q).None?
  {
    if FindSpan(s, head, p).Some? {
      FindSpanFound(s, head, p);
    } else {
      FindSpanMissing(s, head, p);
    }
  }

  lemma {:induction false} FindSpanFound(s: string, head: string, p: nat)
    requires p <= |s| && FindSpan(s, head, p).Some?
    ensures SpanAt(s, head, FindSpan(s, head, p).value.start) == FindSpan(s, head, p)
    ensures forall q :: p <= q < FindSpan(s, head, p).value.start ==> SpanAt(s, head, q).None?
    decreases |s| - p
  {
    if SpanAt(s, head, p).None? {
      FindSpanFound(s, head, p + 1);
    }
  }

  lemma {:induction false} FindSpanMissing(s: string, head: string, p: nat)
    requires p <= |s| && FindSpan(s, head, p).None?
    ensures forall q :: p <= q <= |s| ==> SpanAt(s, head, q).None?
    decreases |s| - p
  {
    if p < |s| {
      FindSpanMissing(s, head, p + 1);
    }
  }

  /** The span used is a match of the pattern, and no match starts earlier;
      with no match anywhere, no span is used. */
  lemma FirstSpan(s: string, head: string)
    ensures FindSpan(s, head, 0).Some? ==>
              IsSpan(s, head, FindSpan(s, head, 0).value) &&
              forall m :: IsSpan(s, head, m) ==> FindSpan(s, head, 0).value.start <= m.start
    ensures FindSpan(s, head, 0).None? ==> forall m :: !IsSpan(s, head, m)
  {
    FindSpanSpec(s, head, 0);
    if FindSpan(s, head, 0).Some? {
      SpanAtSound(s, head, FindSpan(s, head, 0).value.start);
    }
    forall m | IsSpan(s, head, m)
      ensures FindSpan(s, head, 0).Some? && FindSpan(s, head, 0).value.start <= m.start
    {
      SpanAtComplete(s, head, m);
    }
  }

  // ---------------------------------------------------------------------------
  // The transform

  /** A file that already mentions the marker anywhere is left alone. */
  lemma MarkerPresentNoChange(content: string)
    requires Contains(content, Marker)
    ensures Inject(content).None?
  {
  }

  /** A file with no `ClassInfo { ... }` span is left alone. */
  lemma NoSpanNoChange(content: string)
    requires forall m :: !IsSpan(content, Head, m)
    ensures Inject(content).None?
  {
    FirstSpan(content, Head);
  }

  /** The inner text is kept; a line feed is added after it exactly when it is
      not blank and lacks one, so the fragment starts a line of its own unless
      the inner text is blank. */
  lemma PaddedSpec(inner: string)
    ensures IsBlank(inner) || EndsWith(inner, "\n") ==> Padded(inner) == inner
    ensures !IsBlank(inner) && !EndsWith(inner, "\n") ==> Padded(inner) == inner + "\n"
    ensures !IsBlank(inner) ==> EndsWith(Padded(inner), "\n")
  {
    BlankIsStripEmpty(inner);
    var r := inner + "\n";
    assert r[|r| - 1..] == "\n";
  }

  lemma FragmentHasMarker()
    ensures Contains(Fragment, Marker)
  {
    assert OccursAt(Fragment, Marker, 0);
  }

  lemma MiddleOccurs(a: string, x: string, c: string, d: string)
    ensures OccursAt(a + x + c + d, x, |a|)
  {
    assert (a + x + c + d)[|a|..|a| + |x|] == x;
  }

  /** The new block holds the marker. */
  lemma NewBlockHasMarker(g1: string, inner: string, frag: string, g3: string)
    requires Contains(frag, Marker)
    ensures Contains(NewBlock(g1, inner, frag, g3), Marker)
  {
    MiddleOccurs(g1 + Padded(inner), frag, "\n", g3);
    ContainsTrans(NewBlock(g1, inner, frag, g3), frag, Marker);
  }

  /** The rewritten content holds the marker. */
  lemma RewriteHasMarker(content: string, m: Span, frag: string)
    requires Within(m, content) && Contains(frag, Marker)
    ensures Contains(Rewrite(content, m, frag), Marker)
  {
    var w := Whole(content, m);
    var b := Block(content, m, frag);
    assert OccursAt(content, w, m.start);
    ReplaceAllPlacesReplacement(content, w, b);
    NewBlockHasMarker(content[m.start..m.open], content[m.open..m.close], frag, content[m.close..m.end]);
    ContainsTrans(Rewrite(content, m, frag), b, Marker);
  }

  /** After an injection the content mentions the marker. */
  lemma InjectedHasMarker(content: string)
    requires Inject(content).Some?
    ensures Contains(Inject(content).value, Marker)
  {
    FragmentHasMarker();
    RewriteHasMarker(content, FindSpan(content, Head, 0).value, Fragment);
  }

  /** Running the script a second time leaves the file alone. */
  lemma SecondRunNoChange(content: string)
    requires Inject(content).Some?
    ensures Inject(Inject(content).value).None?
  {
    InjectedHasMarker(content);
  }

  // ---------------------------------------------------------------------------
  // Where the replacement happens

  /** The pattern up to the closing brace depends only on the text it covers,
      so it holds wherever that text is repeated. */
  lemma OpenedMoves(s: string, t: string, head: string, m: Span, q: nat)
    requires Opened(s, head, m) && q + (m.end - m.start) <= |t|
    requires t[q..q + (m.end - m.start)] == s[m.start..m.end]
    ensures Opened(t, head, Span(q, q + (m.open - m.start), q + (m.close - m.start), q + (m.end - m.start)))
  {
    var d := m.end - m.start;
    var o := m.open - m.start;
    var c := m.close - m.start;
    HeadMoves(s, t, head, m.start, q, d);
    SpacesMove(s, t, m.start, q, d, |head|, o - 1);
    BodyMoves(s, t, m.start, q, d, o, c);
  }

  /** The head at the start of a window is at the start of its copy. */
  lemma HeadMoves(s: string, t: string, head: string, a: nat, q: nat, d: nat)
    requires a + d <= |s| && q + d <= |t| && t[q..q + d] == s[a..a + d] && |head| <= d
    requires OccursAt(s, head, a)
    ensures OccursAt(t, head, q)
  {
    SliceOfWindow(s, t, a, q, d, 0, |head|);
  }

  /** The braces and the brace-free text between them carry over to the
      copy of a window. */
  lemma BodyMoves(s: string, t: string, a: nat, q: nat, d: nat, o: nat, c: nat)
    requires a + d <= |s| && q + d <= |t| && t[q..q + d] == s[a..a + d] && 0 < o <= c < d
    requires s[a + o - 1] == '{' && Lacks(s[a + o..a + c], '}') && s[a + c] == '}'
    ensures t[q + o - 1] == '{' && Lacks(t[q + o..q + c], '}') && t[q + c] == '}'
  {
    SliceOfWindow(s, t, a, q, d, o, c);
    WindowChar(s, t, a, q, d, o - 1);
    WindowChar(s, t, a, q, d, c);
  }

  lemma SpacesMove(s: string, t: string, a: nat, q: nat, d: nat, i: nat, j: nat)
    requires a + d <= |s| && q + d <= |t| && t[q..q + d] == s[a..a + d] && i <= j <= d
    requires SpacesIn(s, a + i, a + j)
    ensures SpacesIn(t, q + i, q + j)
  {
    forall x | q + i <= x < q + j
      ensures IsSpace(t[x])
    {
      WindowChar(s, t, a, q, d, x - q);
    }
  }

  /** Character `k` of two equal windows. */
  lemma WindowChar(s: string, t: string, a: nat, q: nat, d: nat, k: nat)
    requires a + d <= |s| && q + d <= |t| && t[q..q + d] == s[a..a + d] && k < d
    ensures t[q + k] == s[a + k]
  {
    assert t[q + k] == t[q..q + d][k];
  }

  /** A slice `[i..j)` of two equal windows. */
  lemma SliceOfWindow(s: string, t: string, a: nat, q: nat, d: nat, i: nat, j: nat)
    requires a + d <= |s| && q + d <= |t| && t[q..q + d] == s[a..a + d] && i <= j <= d
    ensures t[q + i..q + j] == s[a + i..a + j]
  {
    forall x | q + i <= x < q + j
      ensures t[x] == s[a + (x - q)]
    {
      WindowChar(s, t, a, q, d, x - q);
    }
  }

  /** No copy of the span's text starts before the span: it would be an
      earlier match. */
  lemma NoCopyBefore(s: string, head: string, m: Span, q: nat)
    requires FindSpan(s, head, 0) == Some(m) && q < m.start
    ensures !StartsWith(s[q..], Whole(s, m))
  {
    if StartsWith(s[q..], Whole(s, m)) {
      FirstSpan(s, head);
      assert s[q..q + (m.end - m.start)] == s[q..][..m.end - m.start];
      OpenedMoves(s, s, head, m, q);
      OpenedMatches(s, head, Span(q, q + (m.open - m.start), q + (m.close - m.start), q + (m.end - m.start)));
      FindSpanSpec(s, head, 0);
    }
  }

  /** The text before the span is copied unchanged, the span becomes its new
      block, and every later copy of the span's text is replaced too. */
  lemma RewriteAtSpan(s: string, head: string, m: Span, frag: string)
    requires FindSpan(s, head, 0) == Some(m)
    ensures Rewrite(s, m, frag) ==
            s[..m.start] + (Block(s, m, frag) + ReplaceAll(s[m.end..], Whole(s, m), Block(s, m, frag)))
  {
    forall q | 0 <= q < m.start
      ensures !StartsWith(s[q..], Whole(s, m))
    {
      NoCopyBefore(s, head, m, q);
    }
    assert OccursAt(s, Whole(s, m), m.start);
    ReplaceAllFirst(s, Whole(s, m), Block(s, m, frag), m.start, m.end);
  }

  /** On an injection, the text before the first span is unchanged, the span
      becomes its new block, and later copies of its text are replaced too. */
  lemma SpanRewritten(content: string)
    requires Inject(content).Some?
    ensures var m := FindSpan(content, Head, 0).value;
            var b := Block(content, m, Fragment);
            Inject(content).value == content[..m.start] + (b + ReplaceAll(content[m.end..], Whole(content, m), b))
  {
    RewriteAtSpan(content, Head, FindSpan(content, Head, 0).value, Fragment);
  }

  /** A span that runs to the end of `w` stays a span once text not starting
      with whitespace follows it. */
  lemma SpanExtends(w: string, t: string, head: string, m: Span)
    requires IsSpan(w, head, m) && m.end == |w| && (t == [] || !IsSpace(t[0]))
    ensures IsSpan(w + t, head, m)
  {
    assert (w + t)[m.start..m.end] == w[m.start..m.end];
    OpenedMoves(w, w + t, head, m, m.start);
    if t != [] {
      assert (w + t)[|w|] == t[0];
    }
  }

  /** Content made of copies of one span that covers all of `w` is matched
      at its start by that span. */
  lemma CopiesMatchAtStart(w: string, head: string, m: Span, n: nat)
    requires n >= 1 && IsSpan(w, head, m) && m.start == 0 && m.end == |w|
    requires head != [] && !IsSpace(head[0])
    ensures FindSpan(Copies(w, n), head, 0) == Some(m)
  {
    var t := Copies(w, n - 1);
    assert Copies(w, n) == w + t;
    if n > 1 {
      assert t == w + Copies(w, n - 2);
      assert w[0] == w[0..|head|][0];
    }
    SpanExtends(w, t, head, m);
    SpanAtComplete(w + t, head, m);
  }

  /** The rewrite of content made of copies of one span. */
  lemma CopiesRewrite(w: string, m: Span, n: nat, frag: string)
    requires n >= 1 && Within(m, w) && m.start == 0 && m.end == |w|
    ensures Rewrite(Copies(w, n), m, frag) == Copies(Block(w, m, frag), n)
  {
    var s := Copies(w, n);
    assert s == w + Copies(w, n - 1);
    assert Whole(s, m) == w;
    assert s[m.start..m.open] == w[m.start..m.open];
    assert s[m.open..m.close] == w[m.open..m.close];
    assert s[m.close..m.end] == w[m.close..m.end];
    ReplaceAllCopies(w, Block(w, m, frag), n);
  }

  /** Every copy of the span's text is replaced, not only the first: content
      made of `n` copies of one span becomes `n` copies of its new block. */
  lemma EveryCopyReplaced(w: string, m: Span, n: nat)
    requires n >= 1 && IsSpan(w, Head, m) && m.start == 0 && m.end == |w|
    requires !Contains(Copies(w, n), Marker)
    ensures Inject(Copies(w, n)) == Some(Copies(Block(w, m, Fragment), n))
  {
    CopiesMatchAtStart(w, Head, m, n);
    CopiesRewrite(w, m, n, Fragment);
  }
}
