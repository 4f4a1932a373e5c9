/** The rename planner and reference rewriter of `batchrename.py`: every
    `.mbch` and `.mbtc` file is renamed to carry the `test_` prefix once, the
    whole-word occurrences of its own name in its content are prefixed, and
    each `.mbtc` file also has the names of the `.mbch` files prefixed. */
module BatchRename {
  import opened Text

  const Prefix: string := "test_"

  // ---------------------------------------------------------------------------
  // Names

  /** `os.path.splitext` of a file name. */
  datatype Split = Split(base: string, ext: string)

  /** Index of the last `.` in `s`. */
  function LastDot(s: string): (r: Option<nat>)
    ensures r.Some? ==> r.value < |s| && s[r.value] == '.' && Lacks(s[r.value + 1..], '.')
    ensures r.None? ==> Lacks(s, '.')
  {
    if s == [] then None
    else if s[|s| - 1] == '.' then Some(|s| - 1)
    else
      var r := LastDot(s[..|s| - 1]);
      assert r.Some? ==> s[r.value + 1..] == s[..|s| - 1][r.value + 1..] + [s[|s| - 1]];
      r
  }

  /** Some character before index `d` is not a dot. */
  predicate NonDotBefore(s: string, d: nat)
    requires d <= |s|
  {
    exists k :: 0 <= k < d && s[k] != '.'
  }

  /** The extension starts at the last dot, unless only dots come before
      it; then there is none. */
  function SplitExt(name: string): (r: Split)
    ensures r.base + r.ext == name
  {
    match LastDot(name)
    case Some(d) =>
      if NonDotBefore(name, d) then Split(name[..d], name[d..]) else Split(name, [])
    case None => Split(name, [])
  }

  /** The last dot is the one with no dot after it. */
  lemma {:induction false} LastDotAt(s: string, d: nat)
    requires d < |s| && s[d] == '.' && Lacks(s[d + 1..], '.')
    ensures LastDot(s) == Some(d)
    decreases |s|
  {
    if d < |s| - 1 {
      var s0 := s[..|s| - 1];
      assert s[|s| - 1] == s[d + 1..][|s| - 2 - d];
      assert s0[d + 1..] == s[d + 1..|s| - 1];
      LastDotAt(s0, d);
    }
  }

  /** A file selected by its extension `e` (a dot and then no dot) splits
      off exactly that extension, unless only dots precede it. */
  lemma SelectedExtension(name: string, e: string)
    requires |e| >= 1 && e[0] == '.' && Lacks(e[1..], '.') && EndsWith(name, e)
    ensures var d := |name| - |e|;
      SplitExt(name) == if NonDotBefore(name, d) then Split(name[..d], e) else Split(name, [])
  {
    var d := |name| - |e|;
    assert name[d..] == e;
    assert name[d + 1..] == e[1..];
    LastDotAt(name, d);
  }

  /** Putting a base name that starts with a non-dot in front of an
      extension gives back that split. */
  lemma JoinSplits(base: string, ext: string)
    requires base != [] && base[0] != '.'
    requires ext == [] || (ext[0] == '.' && Lacks(ext[1..], '.'))
    requires ext == [] ==> Lacks(base, '.')
    ensures SplitExt(base + ext) == Split(base, ext)
  {
    var name := base + ext;
    if ext != [] {
      assert name[|base|] == '.';
      assert name[|base| + 1..] == ext[1..];
      LastDotAt(name, |base|);
      assert name[0] == base[0];
      assert name[..|base|] == base && name[|base|..] == ext;
    } else {
      assert name == base;
    }
  }

  /** `original_clean_base_name`: one leading `test_` removed. */
  function CleanName(base: string): string {
    if StartsWith(base, Prefix) then base[|Prefix|..] else base
  }

  /** `target_prefixed_base_name`. */
  function TargetName(base: string): string {
    Prefix + CleanName(base)
  }

  /** The clean name strips exactly one leading `test_`, and the target of a
      target is itself, so renaming twice is renaming once. */
  lemma TargetSpec(base: string)
    ensures StartsWith(base, Prefix) ==> base == Prefix + CleanName(base)
    ensures !StartsWith(base, Prefix) ==> CleanName(base) == base
    ensures CleanName(TargetName(base)) == CleanName(base)
    ensures TargetName(TargetName(base)) == TargetName(base)
  {
    var t := TargetName(base);
    assert t[..|Prefix|] == Prefix;
    assert t[|Prefix|..] == CleanName(base);
  }

  /** The file is renamed exactly when its base name lacks the prefix. */
  lemma RenameIffUnprefixed(base: string)
    ensures base != TargetName(base) <==> !StartsWith(base, Prefix)
  {
    if !StartsWith(base, Prefix) {
      assert |TargetName(base)| > |base|;
    }
  }

  // ---------------------------------------------------------------------------
  // The guarded substitution

  /** `\b` at index `i`: a word character on exactly one side. */
  predicate Boundary(s: string, i: nat)
    requires i <= |s|
  {
    (i > 0 && IsWordChar(s[i - 1])) != (i < |s| && IsWordChar(s[i]))
  }

  /** `(?<!test_)` fails at `i`: the five characters before it spell
      `test_`. */
  predicate AfterPrefix(s: string, i: nat)
    requires i <= |s|
  {
    i >= 5 && s[i - 5] == 't' && s[i - 4] == 'e' && s[i - 3] == 's' && s[i - 2] == 't' && s[i - 1] == '_'
  }

  /** `\b(?<!test_)<name>\b` matches at `i` (`re.escape` makes the name a
      literal). */
  predicate MatchAt(s: string, name: string, i: nat)
    requires i <= |s|
  {
    Boundary(s, i) && !AfterPrefix(s, i) && LiteralAt(s, name, i) && Boundary(s, i + |name|)
  }

  /** `re.sub` of the pattern by `target` on `s[i..]`, the scan seeing the
      whole of `s` for its look-behind and boundaries. Matches are taken
      left to right without overlap; an empty name matches the empty string,
      and after an empty match the scan copies one character. */
  function SubFrom(s: string, name: string, target: string, i: nat): string
    requires i <= |s|
    decreases |s| - i
  {
    if MatchAt(s, name, i) && name != [] then target + SubFrom(s, name, target, i + |name|)
    else
      (if MatchAt(s, name, i) then target else []) +
      (if i < |s| then [s[i]] + SubFrom(s, name, target, i + 1) else [])
  }

  function Sub(s: string, name: string, target: string): string {
    SubFrom(s, name, target, 0)
  }

  /** Positions without a match are copied. */
  lemma {:induction false} SubSkips(s: string, name: string, target: string, i: nat, j: nat)
    requires name != [] && i <= j <= |s|
    requires forall q :: i <= q < j ==> !MatchAt(s, name, q)
    ensures SubFrom(s, name, target, i) == s[i..j] + SubFrom(s, name, target, j)
    decreases j - i
  {
    if i < j {
      SubSkips(s, name, target, i + 1, j);
      SliceCons(s, i, j, SubFrom(s, name, target, j));
    }
  }

  /** Without a match the content is returned unchanged. */
  lemma NoMatchUnchanged(s: string, name: string, target: string)
    requires name != [] && forall q :: 0 <= q <= |s| ==> !MatchAt(s, name, q)
    ensures Sub(s, name, target) == s
  {
    SubSkips(s, name, target, 0, |s|);
    assert s[0..|s|] == s;
  }

  /** Text before the first match is copied, and the match is replaced. */
  lemma FirstMatchReplaced(s: string, name: string, target: string, i: nat)
    requires name != [] && i <= |s| && MatchAt(s, name, i)
    requires forall q :: 0 <= q < i ==> !MatchAt(s, name, q)
    ensures Sub(s, name, target) == s[..i] + (target + SubFrom(s, name, target, i + |name|))
  {
    SubSkips(s, name, target, 0, i);
  }

  // ---------------------------------------------------------------------------
  // Names made of word characters

  predicate AllWord(s: string) {
    forall k :: 0 <= k < |s| ==> IsWordChar(s[k])
  }

  /** Length of the run of word characters at `i`. */
  function WordRun(s: string, i: nat): (n: nat)
    requires i <= |s|
    ensures i + n <= |s|
    ensures i < |s| && IsWordChar(s[i]) ==> n >= 1
    decreases |s| - i
  {
    if i < |s| && IsWordChar(s[i]) then 1 + WordRun(s, i + 1) else 0
  }

  lemma {:induction false} WordRunSpec(s: string, i: nat)
    requires i <= |s|
    ensures forall k :: i <= k < i + WordRun(s, i) ==> IsWordChar(s[k])
    ensures i + WordRun(s, i) == |s| || !IsWordChar(s[i + WordRun(s, i)])
    decreases |s| - i
  {
    if i < |s| && IsWordChar(s[i]) {
      WordRunSpec(s, i + 1);
    }
  }

  lemma {:induction false} WordRunEndsAt(s: string, i: nat, j: nat)
    requires i <= j <= |s| && (forall k :: i <= k < j ==> IsWordChar(s[k]))
    requires j == |s| || !IsWordChar(s[j])
    ensures WordRun(s, i) == j - i
    decreases j - i
  {
    if i < j {
      WordRunEndsAt(s, i + 1, j);
    }
  }

  /** Reference definition, word by word: every maximal run of word
      characters equal to `name` becomes `target`; everything else is
      copied. */
  function TokenSub(s: string, name: string, target: string): string
    decreases |s|
  {
    if s == [] then []
    else if !IsWordChar(s[0]) then [s[0]] + TokenSub(s[1..], name, target)
    else
      var k := WordRun(s, 0);
      (if s[..k] == name then target else s[..k]) + TokenSub(s[k..], name, target)
  }

  /** Index `i` does not split a run of word characters. */
  predicate TokenStart(s: string, i: nat)
    requires i <= |s|
  {
    i == 0 || i == |s| || !IsWordChar(s[i - 1]) || !IsWordChar(s[i])
  }

  /** Inside a run of word characters that is not the name, no match
      starts. */
  lemma NoMatchInRun(s: string, name: string, i: nat, k: nat)
    requires AllWord(name) && name != [] && i + k <= |s| && k == WordRun(s, i) && k > 0
    requires TokenStart(s, i) && s[i..i + k] != name
    ensures forall q :: i <= q < i + k ==> !MatchAt(s, name, q)
  {
    WordRunSpec(s, i);
    forall q | i <= q < i + k
      ensures !MatchAt(s, name, q)
    {
      if q > i {
        assert IsWordChar(s[q - 1]) && IsWordChar(s[q]);
        assert !Boundary(s, q);
      } else {
        NotLiteralInRun(s, name, i, k);
      }
    }
  }

  lemma NotLiteralInRun(s: string, name: string, i: nat, k: nat)
    requires AllWord(name) && name != [] && i + k <= |s| && k == WordRun(s, i) && k > 0
    requires s[i..i + k] != name
    ensures !(LiteralAt(s, name, i) && Boundary(s, i + |name|))
  {
    WordRunSpec(s, i);
    var n := |name|;
    if LiteralAt(s, name, i) {
      LiteralAtIsOccurs(s, name, i);
      assert n != k;
      if n < k {
        assert IsWordChar(s[i + n - 1]) && IsWordChar(s[i + n]);
        assert !Boundary(s, i + n);
      } else {
        assert false;
      }
    }
  }

  /** A run of word characters equal to the name is a match: the boundary
      before it also rules out the `test_` look-behind. */
  lemma RunIsMatch(s: string, name: string, i: nat, k: nat)
    requires AllWord(name) && name != [] && i + k <= |s| && k == WordRun(s, i) && k > 0
    requires TokenStart(s, i) && s[i..i + k] == name
    ensures MatchAt(s, name, i)
  {
    WordRunSpec(s, i);
    LiteralAtIsOccurs(s, name, i);
    assert IsWordChar(s[i]);
  }

  lemma TokenSubStep(s: string, name: string, target: string, i: nat, k: nat)
    requires i < |s| && IsWordChar(s[i]) && k == WordRun(s, i)
    ensures TokenSub(s[i..], name, target) ==
      (if s[i..i + k] == name then target else s[i..i + k]) + TokenSub(s[i + k..], name, target)
  {
    var t := s[i..];
    WordRunSpec(s, i);
    WordRunEndsAt(t, 0, k);
    assert t[..k] == s[i..i + k];
    assert t[k..] == s[i + k..];
  }

  /** A character that is not a word character is copied by the scan. */
  lemma SubCopiesNonWord(s: string, name: string, target: string, i: nat)
    requires AllWord(name) && name != [] && i < |s| && !IsWordChar(s[i])
    ensures SubFrom(s, name, target, i) == [s[i]] + SubFrom(s, name, target, i + 1)
    ensures TokenStart(s, i + 1)
  {
    assert !LiteralAt(s, name, i) by {
      assert IsWordChar(name[0]);
    }
  }

  /** The scan handles a whole run of word characters at once. */
  lemma SubTakesRun(s: string, name: string, target: string, i: nat, k: nat)
    requires AllWord(name) && name != [] && i < |s| && IsWordChar(s[i]) && TokenStart(s, i)
    requires k == WordRun(s, i)
    ensures SubFrom(s, name, target, i) ==
      (if s[i..i + k] == name then target else s[i..i + k]) + SubFrom(s, name, target, i + k)
    ensures TokenStart(s, i + k)
  {
    WordRunSpec(s, i);
    if s[i..i + k] == name {
      SubAtRun(s, name, target, i, k);
    } else {
      SubPastRun(s, name, target, i, k);
    }
  }

  /** A run equal to the name is replaced as a whole. */
  lemma SubAtRun(s: string, name: string, target: string, i: nat, k: nat)
    requires AllWord(name) && name != [] && i < |s| && IsWordChar(s[i]) && TokenStart(s, i)
    requires k == WordRun(s, i) && s[i..i + k] == name
    ensures SubFrom(s, name, target, i) == target + SubFrom(s, name, target, i + k)
  {
    RunIsMatch(s, name, i, k);
    assert |name| == k;
  }

  /** Any other run is copied as a whole. */
  lemma SubPastRun(s: string, name: string, target: string, i: nat, k: nat)
    requires AllWord(name) && name != [] && i < |s| && IsWordChar(s[i]) && TokenStart(s, i)
    requires k == WordRun(s, i) && s[i..i + k] != name
    ensures SubFrom(s, name, target, i) == s[i..i + k] + SubFrom(s, name, target, i + k)
  {
    NoMatchInRun(s, name, i, k);
    SubSkips(s, name, target, i, i + k);
  }

  /** For a name made of word characters the regex scan is the word-by-word
      substitution. */
  lemma {:induction false} SubIsTokenSub(s: string, name: string, target: string, i: nat)
    requires AllWord(name) && name != [] && i <= |s| && TokenStart(s, i)
    ensures SubFrom(s, name, target, i) == TokenSub(s[i..], name, target)
    decreases |s| - i
  {
    if i < |s| {
      if !IsWordChar(s[i]) {
        SubCopiesNonWord(s, name, target, i);
        SubIsTokenSub(s, name, target, i + 1);
        NonWordJoin(s, name, target, i);
      } else {
        var k := WordRun(s, i);
        SubTakesRun(s, name, target, i, k);
        SubIsTokenSub(s, name, target, i + k);
        RunJoin(s, name, target, i, k);
      }
    }
  }

  /** One step of `SubIsTokenSub` at a character that is not a word
      character. */
  lemma NonWordJoin(s: string, name: string, target: string, i: nat)
    requires AllWord(name) && name != [] && i < |s| && !IsWordChar(s[i])
    requires SubFrom(s, name, target, i + 1) == TokenSub(s[i + 1..], name, target)
    ensures SubFrom(s, name, target, i) == TokenSub(s[i..], name, target)
  {
    SubCopiesNonWord(s, name, target, i);
    assert s[i..][1..] == s[i + 1..];
  }

  /** One step of `SubIsTokenSub` over a run of word characters. */
  lemma RunJoin(s: string, name: string, target: string, i: nat, k: nat)
    requires AllWord(name) && name != [] && i < |s| && IsWordChar(s[i]) && TokenStart(s, i)
    requires k == WordRun(s, i)
    requires SubFrom(s, name, target, i + k) == TokenSub(s[i + k..], name, target)
    ensures SubFrom(s, name, target, i) == TokenSub(s[i..], name, target)
  {
    SubTakesRun(s, name, target, i, k);
    TokenSubStep(s, name, target, i, k);
  }

  /** The whole-content form of `SubIsTokenSub`. */
  lemma SubWholeIsTokenSub(s: string, name: string, target: string)
    requires AllWord(name) && name != []
    ensures Sub(s, name, target) == TokenSub(s, name, target)
  {
    SubIsTokenSub(s, name, target, 0);
    assert s[0..] == s;
  }

  lemma TokenSubLeads(t: string, name: string, target: string)
    requires t != [] && !IsWordChar(t[0])
    ensures TokenSub(t, name, target) != [] && TokenSub(t, name, target)[0] == t[0]
  {
  }

  /** Substituting again changes nothing: every word of the output is
      either a word that is not the name or the target, and the target is
      replaced by itself only if it is the name. */
  lemma {:induction false} TokenSubIdempotent(s: string, name: string, target: string)
    requires AllWord(target) && target != []
    ensures TokenSub(TokenSub(s, name, target), name, target) == TokenSub(s, name, target)
    decreases |s|
  {
    if s != [] {
      if !IsWordChar(s[0]) {
        var y := TokenSub(s[1..], name, target);
        TokenSubIdempotent(s[1..], name, target);
        assert ([s[0]] + y)[1..] == y;
      } else {
        var k := WordRun(s, 0);
        WordRunSpec(s, 0);
        var piece := if s[..k] == name then target else s[..k];
        var y := TokenSub(s[k..], name, target);
        if s[k..] != [] {
          TokenSubLeads(s[k..], name, target);
        }
        var out := piece + y;
        WordRunEndsAt(out, 0, |piece|);
        assert out[..|piece|] == piece;
        assert out[|piece|..] == y;
        TokenSubIdempotent(s[k..], name, target);
      }
    }
  }

  /** For a name and a target made of word characters, rewriting the
      content a second time changes nothing: no `test_test_` appears. */
  lemma SubIdempotent(s: string, name: string, target: string)
    requires AllWord(name) && name != [] && AllWord(target) && target != []
    ensures Sub(Sub(s, name, target), name, target) == Sub(s, name, target)
  {
    var once := Sub(s, name, target);
    SubIsTokenSub(s, name, target, 0);
    SubIsTokenSub(once, name, target, 0);
    assert s[0..] == s && once[0..] == once;
    TokenSubIdempotent(s, name, target);
  }

  /** A name already carrying the prefix is left alone, and a bare name is
      prefixed: `test_a` stays `test_a`, `a` becomes `test_a`. */
  lemma PrefixedWordKept(name: string, u: string)
    requires AllWord(name) && name != []
    requires u == [] || !IsWordChar(u[0])
    ensures Sub(Prefix + name + u, name, Prefix + name) == Prefix + name + Sub(u, name, Prefix + name)
    ensures Sub(name + u, name, Prefix + name) == Prefix + name + Sub(u, name, Prefix + name)
  {
    var t := Prefix + name;
    PrefixedWord(name);
    SubWholeIsTokenSub(t + u, name, t);
    SubWholeIsTokenSub(name + u, name, t);
    SubWholeIsTokenSub(u, name, t);
    TokenSubOfPiece(t, u, name, t);
    TokenSubOfPiece(name, u, name, t);
  }

  /** The name and its target as the script builds them. */
  lemma PrefixedNameSettled(s: string, name: string)
    requires AllWord(name) && name != []
    ensures Sub(Sub(s, name, Prefix + name), name, Prefix + name) == Sub(s, name, Prefix + name)
  {
    var t := Prefix + name;
    assert forall k :: 0 <= k < |Prefix| ==> IsWordChar(t[k]);
    assert forall k :: |Prefix| <= k < |t| ==> t[k] == name[k - |Prefix|];
    SubIdempotent(s, name, t);
  }

  // ---------------------------------------------------------------------------
  // Chains of renames, word by word

  /** A rename map in insertion order: clean name to target name. */
  type NameMap = seq<(string, string)>

  /** Every clean name and every target is a non-empty run of word
      characters. */
  predicate WordPairs(m: NameMap) {
    forall i :: 0 <= i < |m| ==> AllWord(m[i].0) && m[i].0 != [] && AllWord(m[i].1) && m[i].1 != []
  }

  /** No target is also a clean name of the map. */
  predicate NoTargetIsKey(m: NameMap) {
    forall i, j :: 0 <= i < |m| && 0 <= j < |m| ==> m[i].1 != m[j].0
  }

  /** What a whole word becomes when the entries are applied in order: each
      entry whose clean name equals the word as it stands replaces it. */
  function Chain(w: string, m: NameMap): string
    decreases |m|
  {
    if m == [] then w
    else
      var v := Chain(w, m[..|m| - 1]);
      if v == m[|m| - 1].0 then m[|m| - 1].1 else v
  }

  /** Reference definition of a rewrite by several entries: every maximal
      run of word characters goes through `Chain`; everything else is
      copied. */
  function TokenMap(s: string, m: NameMap): string
    decreases |s|
  {
    if s == [] then []
    else if !IsWordChar(s[0]) then [s[0]] + TokenMap(s[1..], m)
    else
      var k := WordRun(s, 0);
      Chain(s[..k], m) + TokenMap(s[k..], m)
  }

  /** The entries applied one after the other with the guarded pattern. */
  function ApplyNames(c: string, m: NameMap): string
    decreases |m|
  {
    if m == [] then c else Sub(ApplyNames(c, m[..|m| - 1]), m[|m| - 1].0, m[|m| - 1].1)
  }

  lemma {:induction false} ChainIsWord(w: string, m: NameMap)
    requires WordPairs(m) && AllWord(w) && w != []
    ensures AllWord(Chain(w, m)) && Chain(w, m) != []
    decreases |m|
  {
    if m != [] {
      ChainIsWord(w, m[..|m| - 1]);
    }
  }

  /** A word that is no clean name passes through unchanged. */
  lemma {:induction false} ChainOfNonKey(v: string, m: NameMap)
    requires forall i :: 0 <= i < |m| ==> m[i].0 != v
    ensures Chain(v, m) == v
    decreases |m|
  {
    if m != [] {
      ChainOfNonKey(v, m[..|m| - 1]);
    }
  }

  /** A word ends up either unchanged or as one of the targets. */
  lemma {:induction false} ChainResult(w: string, m: NameMap)
    ensures Chain(w, m) == w || exists i :: 0 <= i < |m| && Chain(w, m) == m[i].1
    decreases |m|
  {
    if m != [] {
      ChainResult(w, m[..|m| - 1]);
    }
  }

  /** When no target is a clean name, a chain applied twice is applied
      once. */
  lemma ChainIdempotent(w: string, m: NameMap)
    requires NoTargetIsKey(m)
    ensures Chain(Chain(w, m), m) == Chain(w, m)
  {
    ChainResult(w, m);
    var v := Chain(w, m);
    if v != w {
      var i :| 0 <= i < |m| && v == m[i].1;
      ChainOfNonKey(v, m);
    }
  }

  /** Entries are not independent: a target that is a later clean name is
      renamed again, so `a` becomes `test_test_a` when the map holds
      `a -> test_a` and then `test_a -> test_test_a`. */
  lemma ChainedEntries()
    ensures Chain("a", [("a", "test_a"), ("test_a", "test_test_a")]) == "test_test_a"
  {
    var m: NameMap := [("a", "test_a"), ("test_a", "test_test_a")];
    assert m[..1] == [("a", "test_a")];
    assert m[..1][..0] == [];
  }

  lemma TokenMapLeads(t: string, m: NameMap)
    requires t != [] && !IsWordChar(t[0])
    ensures TokenMap(t, m) != [] && TokenMap(t, m)[0] == t[0]
  {
  }

  lemma {:induction false} TokenMapEmpty(s: string)
    ensures TokenMap(s, []) == s
    decreases |s|
  {
    if s != [] {
      if !IsWordChar(s[0]) {
        TokenMapEmpty(s[1..]);
      } else {
        TokenMapEmpty(s[WordRun(s, 0)..]);
      }
    }
  }

  /** The word-by-word rewrite of `piece + y`, where `piece` is a whole
      word and `y` does not continue it. */
  lemma TokenSubOfPiece(piece: string, y: string, name: string, target: string)
    requires AllWord(piece) && piece != []
    requires y == [] || !IsWordChar(y[0])
    ensures TokenSub(piece + y, name, target) == (if piece == name then target else piece) + TokenSub(y, name, target)
  {
    var out := piece + y;
    WordRunEndsAt(out, 0, |piece|);
    assert out[..|piece|] == piece;
    assert out[|piece|..] == y;
  }

  lemma {:induction false} TokenMapStep(s: string, m: NameMap, name: string, target: string)
    requires WordPairs(m) && AllWord(target) && target != []
    ensures TokenSub(TokenMap(s, m), name, target) == TokenMap(s, m + [(name, target)])
    decreases |s|
  {
    var m' := m + [(name, target)];
    assert m'[..|m'| - 1] == m;
    if s != [] {
      if !IsWordChar(s[0]) {
        var y := TokenMap(s[1..], m);
        TokenMapStep(s[1..], m, name, target);
        assert ([s[0]] + y)[1..] == y;
      } else {
        var k := WordRun(s, 0);
        WordRunSpec(s, 0);
        assert AllWord(s[..k]);
        var piece := Chain(s[..k], m);
        ChainIsWord(s[..k], m);
        var y := TokenMap(s[k..], m);
        if s[k..] != [] {
          TokenMapLeads(s[k..], m);
        }
        TokenSubOfPiece(piece, y, name, target);
        TokenMapStep(s[k..], m, name, target);
      }
    }
  }

  /** For clean names and targets made of word characters, applying the
      entries in order is the word-by-word chain. */
  lemma {:induction false} ApplyNamesIsTokenMap(c: string, m: NameMap)
    requires WordPairs(m)
    ensures ApplyNames(c, m) == TokenMap(c, m)
    decreases |m|
  {
    if m == [] {
      TokenMapEmpty(c);
    } else {
      var m0 := m[..|m| - 1];
      var (n, t) := m[|m| - 1];
      WordPairsPrefix(m);
      ApplyNamesIsTokenMap(c, m0);
      SubWholeIsTokenSub(TokenMap(c, m0), n, t);
      TokenMapStep(c, m0, n, t);
      assert m0 + [(n, t)] == m;
    }
  }

  lemma WordPairsPrefix(m: NameMap)
    requires WordPairs(m) && m != []
    ensures WordPairs(m[..|m| - 1])
    ensures AllWord(m[|m| - 1].0) && m[|m| - 1].0 != [] && AllWord(m[|m| - 1].1) && m[|m| - 1].1 != []
  {
    var m0 := m[..|m| - 1];
    forall i | 0 <= i < |m0|
      ensures AllWord(m0[i].0) && m0[i].0 != [] && AllWord(m0[i].1) && m0[i].1 != []
    {
      assert m0[i] == m[i];
    }
  }

  lemma {:induction false} TokenMapIdempotent(s: string, m: NameMap)
    requires WordPairs(m) && NoTargetIsKey(m)
    ensures TokenMap(TokenMap(s, m), m) == TokenMap(s, m)
    decreases |s|
  {
    if s != [] {
      if !IsWordChar(s[0]) {
        var y := TokenMap(s[1..], m);
        TokenMapIdempotent(s[1..], m);
        assert ([s[0]] + y)[1..] == y;
      } else {
        var k := WordRun(s, 0);
        WordRunSpec(s, 0);
        assert AllWord(s[..k]);
        var piece := Chain(s[..k], m);
        ChainIsWord(s[..k], m);
        ChainIdempotent(s[..k], m);
        var y := TokenMap(s[k..], m);
        if s[k..] != [] {
          TokenMapLeads(s[k..], m);
        }
        var out := piece + y;
        WordRunEndsAt(out, 0, |piece|);
        assert out[..|piece|] == piece;
        assert out[|piece|..] == y;
        TokenMapIdempotent(s[k..], m);
      }
    }
  }

  /** A second pass of the same entries changes nothing as long as no
      target is itself one of the clean names. */
  lemma ApplyNamesIdempotent(c: string, m: NameMap)
    requires WordPairs(m) && NoTargetIsKey(m)
    ensures ApplyNames(ApplyNames(c, m), m) == ApplyNames(c, m)
  {
    ApplyNamesIsTokenMap(c, m);
    ApplyNamesIsTokenMap(ApplyNames(c, m), m);
    TokenMapIdempotent(c, m);
  }

  // ---------------------------------------------------------------------------
  // Planning one file

  /** A file: its directory and its name. */
  datatype FileRef = FileRef(dir: string, name: string)

  /** The tuple collected for each file: old and new path, clean and
      target base name. */
  datatype Plan = Plan(source: FileRef, dest: FileRef, clean: string, target: string)

  function PlanFor(f: FileRef): (p: Plan)
    ensures p.source == f && p.dest.dir == f.dir
    ensures p.target == TargetName(SplitExt(f.name).base)
  {
    var sp := SplitExt(f.name);
    var clean := CleanName(sp.base);
    var target := Prefix + clean;
    Plan(f, FileRef(f.dir, target + sp.ext), clean, target)
  }

  /** What happens to the file on disk once its new content is written. */
  datatype Action = Moved(src: FileRef, dst: FileRef) | Overwritten(at: FileRef)

  /** The rename decision: move only if the current base name is not
      already the target. */
  function Decide(p: Plan): Action {
    if SplitExt(p.source.name).base != p.target then Moved(p.source, p.dest) else Overwritten(p.source)
  }

  function Destination(a: Action): FileRef {
    match a
    case Moved(_, dst) => dst
    case Overwritten(at) => at
  }

  /** The file is moved exactly when its base name lacks the prefix, and in
      either case the content ends up at the planned new path: the same
      directory, the target base name and the old extension. */
  lemma DecisionSpec(f: FileRef)
    ensures var p := PlanFor(f); var sp := SplitExt(f.name);
      && (Decide(p).Moved? <==> !StartsWith(sp.base, Prefix))
      && Destination(Decide(p)) == p.dest
      && p.dest == FileRef(f.dir, TargetName(sp.base) + sp.ext)
  {
    var sp := SplitExt(f.name);
    RenameIffUnprefixed(sp.base);
    if sp.base == TargetName(sp.base) {
      assert f.name == sp.base + sp.ext;
    }
  }

  /** A file whose name has an extension keeps it: splitting the new name
      gives the target and the old extension. */
  lemma NewNameKeepsExtension(f: FileRef)
    requires SplitExt(f.name).ext != []
    ensures SplitExt(PlanFor(f).dest.name) == Split(PlanFor(f).target, SplitExt(f.name).ext)
  {
    var sp := SplitExt(f.name);
    var d := LastDot(f.name).value;
    assert sp.ext == f.name[d..];
    assert f.name[d + 1..] == sp.ext[1..];
    JoinSplits(PlanFor(f).target, sp.ext);
  }

  /** Planning the planned name again changes nothing. */
  lemma PlanSettled(f: FileRef)
    requires SplitExt(f.name).ext != []
    ensures PlanFor(PlanFor(f).dest) == Plan(PlanFor(f).dest, PlanFor(f).dest, PlanFor(f).clean, PlanFor(f).target)
    ensures Decide(PlanFor(PlanFor(f).dest)).Overwritten?
  {
    var p := PlanFor(f);
    NewNameKeepsExtension(f);
    TargetSpec(SplitExt(f.name).base);
  }

  // ---------------------------------------------------------------------------
  // The two phases

  /** A file found by the walk; `ok` says whether reading, writing the
      temporary copy, removing and renaming all succeed. */
  datatype Source = Source(ref: FileRef, content: string, ok: bool)

  /** The file left on disk by a successful step. */
  datatype Written = Written(at: FileRef, content: string, moved: bool)

  predicate HasKey(m: NameMap, c: string) {
    exists i :: 0 <= i < |m| && m[i].0 == c
  }

  predicate DistinctKeys(m: NameMap) {
    forall i, j :: 0 <= i < j < |m| ==> m[i].0 != m[j].0
  }

  /** Position of key `k` in the map, if present. */
  function KeyIndex(m: NameMap, k: string): (r: Option<nat>)
    ensures r.Some? ==> r.value < |m| && m[r.value].0 == k
    ensures r.None? ==> !HasKey(m, k)
  {
    if m == [] then None
    else if m[|m| - 1].0 == k then Some(|m| - 1)
    else
      var r := KeyIndex(m[..|m| - 1], k);
      assert forall i :: 0 <= i < |m| - 1 ==> m[..|m| - 1][i] == m[i];
      r
  }

  /** Python dictionary assignment: an existing key keeps its place and takes
      the new value; a new key goes last. */
  function Store(m: NameMap, k: string, v: string): NameMap {
    match KeyIndex(m, k)
    case Some(i) => m[i := (k, v)]
    case None => m + [(k, v)]
  }

  /** After storing, `k` maps to `v`, the keys are those before plus `k`
      and stay distinct, and every other entry is untouched. */
  lemma StoreSpec(m: NameMap, k: string, v: string)
    requires DistinctKeys(m)
    ensures var r := Store(m, k, v);
      && DistinctKeys(r)
      && (exists i :: 0 <= i < |r| && r[i] == (k, v))
      && (forall c :: HasKey(r, c) <==> HasKey(m, c) || c == k)
      && (forall i :: 0 <= i < |r| ==> r[i] == (k, v) || (i < |m| && r[i] == m[i]))
  {
    var r := Store(m, k, v);
    match KeyIndex(m, k)
    case Some(i) =>
      assert r[i] == (k, v);
      forall c | HasKey(m, c)
        ensures HasKey(r, c)
      {
        var j :| 0 <= j < |m| && m[j].0 == c;
        assert r[j].0 == c;
      }
    case None =>
      assert r[|m|] == (k, v);
      forall c | HasKey(m, c)
        ensures HasKey(r, c)
      {
        var j :| 0 <= j < |m| && m[j].0 == c;
        assert r[j].0 == c;
      }
  }

  function FileResult(f: Source, rewritten: string): Written {
    var a := Decide(PlanFor(f.ref));
    Written(Destination(a), rewritten, a.Moved?)
  }

  /** Phase 1 for one `.mbch` file: its own name rewritten in its content. */
  function CharacterResult(f: Source): Written {
    var p := PlanFor(f.ref);
    FileResult(f, Sub(f.content, p.clean, p.target))
  }

  /** Phase 1: results of the files that succeed, in walk order. */
  function CharacterResults(files: seq<Source>): seq<Written>
    decreases |files|
  {
    if files == [] then []
    else
      var rest := CharacterResults(files[..|files| - 1]);
      var f := files[|files| - 1];
      if f.ok then rest + [CharacterResult(f)] else rest
  }

  /** The clean-to-target map built by phase 1. */
  function NameMapOf(files: seq<Source>): NameMap
    decreases |files|
  {
    if files == [] then []
    else
      var m := NameMapOf(files[..|files| - 1]);
      var f := files[|files| - 1];
      var p := PlanFor(f.ref);
      if f.ok then Store(m, p.clean, p.target) else m
  }

  /** Phase 2 for one `.mbtc` file: its own name first, then every map entry
      in order. */
  function TestResult(f: Source, names: NameMap): Written {
    var p := PlanFor(f.ref);
    FileResult(f, ApplyNames(f.content, [(p.clean, p.target)] + names))
  }

  function TestResults(files: seq<Source>, names: NameMap): seq<Written>
    decreases |files|
  {
    if files == [] then []
    else
      var rest := TestResults(files[..|files| - 1], names);
      var f := files[|files| - 1];
      if f.ok then rest + [TestResult(f, names)] else rest
  }

  /** Some file that succeeds has clean name `c`. */
  predicate SucceedsAs(files: seq<Source>, c: string) {
    exists j :: 0 <= j < |files| && files[j].ok && PlanFor(files[j].ref).clean == c
  }

  /** Every entry of the map maps a clean name to `test_` + that name, no
      clean name appears twice, and a clean name is present exactly when
      some `.mbch` file with that clean name was processed successfully. */
  lemma {:induction false} NameMapSpec(files: seq<Source>)
    ensures var m := NameMapOf(files);
      && (forall i :: 0 <= i < |m| ==> m[i].1 == Prefix + m[i].0)
      && DistinctKeys(m)
      && (forall c :: HasKey(m, c) <==> SucceedsAs(files, c))
    decreases |files|
  {
    if files != [] {
      var fs := files[..|files| - 1];
      var f := files[|files| - 1];
      NameMapSpec(fs);
      SucceedsAsLast(files);
      var p := PlanFor(f.ref);
      if f.ok {
        StoreSpec(NameMapOf(fs), p.clean, p.target);
      }
    }
  }

  lemma SucceedsAsLast(files: seq<Source>)
    requires files != []
    ensures var fs := files[..|files| - 1]; var f := files[|files| - 1];
      forall c :: SucceedsAs(files, c) <==> SucceedsAs(fs, c) || (f.ok && PlanFor(f.ref).clean == c)
  {
    var fs := files[..|files| - 1];
    assert forall j :: 0 <= j < |fs| ==> fs[j] == files[j];
  }

  /** A clean name the idempotence argument covers: a non-empty run of word
      characters that does not itself start with `test_`. */
  predicate PlainWordName(c: string) {
    AllWord(c) && c != [] && !StartsWith(c, Prefix)
  }

  /** The entries a `.mbtc` file is rewritten with. */
  function TestEntries(f: Source, names: NameMap): NameMap {
    var p := PlanFor(f.ref);
    [(p.clean, p.target)] + names
  }

  lemma PrefixedWord(c: string)
    requires AllWord(c)
    ensures AllWord(Prefix + c)
  {
    var t := Prefix + c;
    assert forall k :: |Prefix| <= k < |t| ==> t[k] == c[k - |Prefix|];
  }

  /** The phase-1 map holds only plain clean names when every processed
      `.mbch` file has one. */
  lemma NameMapPlain(characters: seq<Source>)
    requires forall j :: 0 <= j < |characters| && characters[j].ok ==> PlainWordName(PlanFor(characters[j].ref).clean)
    ensures forall i :: 0 <= i < |NameMapOf(characters)| ==>
      PlainWordName(NameMapOf(characters)[i].0) && NameMapOf(characters)[i].1 == Prefix + NameMapOf(characters)[i].0
  {
    var m := NameMapOf(characters);
    NameMapSpec(characters);
    forall i | 0 <= i < |m|
      ensures PlainWordName(m[i].0)
    {
      assert HasKey(m, m[i].0);
    }
  }

  /** When every clean name involved is a plain word, rewriting a `.mbtc`
      file's content a second time with its own name and the phase-1 map
      changes nothing. */
  lemma {:induction false} TestRewriteSettled(f: Source, characters: seq<Source>)
    requires PlainWordName(PlanFor(f.ref).clean)
    requires forall j :: 0 <= j < |characters| && characters[j].ok ==> PlainWordName(PlanFor(characters[j].ref).clean)
    ensures var m := TestEntries(f, NameMapOf(characters));
      ApplyNames(ApplyNames(f.content, m), m) == ApplyNames(f.content, m)
  {
    var names := NameMapOf(characters);
    var m := TestEntries(f, names);
    var p := PlanFor(f.ref);
    NameMapPlain(characters);
    forall i | 0 <= i < |m|
      ensures PlainWordName(m[i].0) && m[i].1 == Prefix + m[i].0
    {
      if i == 0 {
        assert m[i] == (p.clean, p.target);
      } else {
        assert m[i] == names[i - 1];
      }
    }
    forall i | 0 <= i < |m|
      ensures AllWord(m[i].0) && m[i].0 != [] && AllWord(m[i].1) && m[i].1 != []
    {
      PrefixedWord(m[i].0);
    }
    forall i, j | 0 <= i < |m| && 0 <= j < |m|
      ensures m[i].1 != m[j].0
    {
      assert StartsWith(m[i].1, Prefix) by {
        assert m[i].1[..|Prefix|] == Prefix;
      }
    }
    ApplyNamesIdempotent(f.content, m);
  }

  // ---------------------------------------------------------------------------
  // The driver

  /** Phase 1: every `.mbch` file in walk order; a file whose I/O fails is
      skipped and leaves no trace in the map or the count. */
  method RenameCharacterFiles(files: seq<Source>) returns (written: seq<Written>, names: NameMap, processed: nat)
    ensures written == CharacterResults(files) && names == NameMapOf(files)
    ensures processed == |written| <= |files|
  {
    written, names, processed := [], [], 0;
    for i := 0 to |files|
      invariant written == CharacterResults(files[..i]) && names == NameMapOf(files[..i])
      invariant processed == |written| <= i
    {
      var f := files[i];
      assert files[..i + 1][..i] == files[..i];
      if f.ok {
        var p := PlanFor(f.ref);
        var content := Sub(f.content, p.clean, p.target);
        written := written + [FileResult(f, content)];
        names := Store(names, p.clean, p.target);
        processed := processed + 1;
      }
    }
    assert files[..|files|] == files;
  }

  /** The content rewrite of one `.mbtc` file: its own name, then the map
      entries one by one. */
  method RewriteTestContent(content: string, clean: string, target: string, names: NameMap) returns (out: string)
    ensures out == ApplyNames(content, [(clean, target)] + names)
  {
    var m := [(clean, target)] + names;
    assert m[..1] == [(clean, target)] && m[..1][..0] == [];
    out := Sub(content, clean, target);
    for i := 0 to |names|
      invariant out == ApplyNames(content, m[..i + 1])
    {
      var (c, t) := names[i];
      assert m[..i + 2][..i + 1] == m[..i + 1];
      out := Sub(out, c, t);
    }
    assert m[..|names| + 1] == m;
  }

  /** Phase 2: every `.mbtc` file in walk order, rewritten with the map. */
  method RenameTestFiles(files: seq<Source>, names: NameMap) returns (written: seq<Written>, processed: nat)
    ensures written == TestResults(files, names)
    ensures processed == |written| <= |files|
  {
    written, processed := [], 0;
    for i := 0 to |files|
      invariant written == TestResults(files[..i], names)
      invariant processed == |written| <= i
    {
      var f := files[i];
      assert files[..i + 1][..i] == files[..i];
      if f.ok {
        var p := PlanFor(f.ref);
        var content := RewriteTestContent(f.content, p.clean, p.target, names);
        written := written + [FileResult(f, content)];
        processed := processed + 1;
      }
    }
    assert files[..|files|] == files;
  }

  /** The whole run: phase 1 on the `.mbch` files, the map handed over
      (empty when it could not be saved), then phase 2 on the `.mbtc`
      files. The counts are the files processed successfully. */
  method ProcessFiles(characters: seq<Source>, tests: seq<Source>, mapSaved: bool)
    returns (written: seq<Written>, characterCount: nat, testCount: nat)
    ensures var names := if mapSaved then NameMapOf(characters) else [];
      written == CharacterResults(characters) + TestResults(tests, names)
    ensures characterCount == |CharacterResults(characters)| && testCount == |written| - characterCount
  {
    var first, names, n1 := RenameCharacterFiles(characters);
    if !mapSaved {
      names := [];
    }
    var second, n2 := RenameTestFiles(tests, names);
    written := first + second;
    characterCount, testCount := n1, n2;
  }
}
