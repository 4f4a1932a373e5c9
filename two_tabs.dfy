/** The tab collapser of `2tabsto1.py`: the whole file content goes through
    `content.replace('\t\t', '\t')`. */
module TwoTabs {
  import opened Text

  /** The transform applied to each file's content. */
  function CollapseTabs(content: string): string {
    ReplaceAll(content, "\t\t", "\t")
  }

  /** Number of tabs that open `s`. */
  function TabRun(s: string): (k: nat)
    ensures k <= |s|
    ensures forall i :: 0 <= i < k ==> s[i] == '\t'
    ensures k == |s| || s[k] != '\t'
  {
    if s != [] && s[0] == '\t' then 1 + TabRun(s[1..]) else 0
  }

  /** Reference definition, run by run: a maximal run of k tabs becomes
      ceil(k/2) tabs and every other character is kept. */
  function HalveRuns(s: string): string
    decreases |s|
  {
    if s == [] then []
    else if s[0] != '\t' then [s[0]] + HalveRuns(s[1..])
    else
      var k := TabRun(s);
      Repeat('\t', (k + 1) / 2) + HalveRuns(s[k..])
  }

  /** `s` with every tab removed. */
  function DropTabs(s: string): (r: string)
    ensures forall i :: 0 <= i < |r| ==> r[i] != '\t'
  {
    if s == [] then [] else (if s[0] == '\t' then [] else [s[0]]) + DropTabs(s[1..])
  }

  // ---------------------------------------------------------------------------

  /** One maximal run of k tabs shrinks to ceil(k/2) tabs. */
  lemma {:induction false} RunCollapse(k: nat, rest: string)
    requires rest == [] || rest[0] != '\t'
    ensures CollapseTabs(Repeat('\t', k) + rest) == Repeat('\t', (k + 1) / 2) + CollapseTabs(rest)
  {
    var s := Repeat('\t', k) + rest;
    if k == 1 {
      SingleTab(rest);
    } else if k >= 2 {
      assert s[..2] == "\t\t";
      ReplaceAllStepMatch(s, "\t\t", "\t");
      assert s[2..] == Repeat('\t', k - 2) + rest;
      RunCollapse(k - 2, rest);
      TabCons((k - 1) / 2, CollapseTabs(rest));
    } else {
      assert s == rest;
    }
  }

  lemma TabCons(m: nat, t: string)
    ensures "\t" + (Repeat('\t', m) + t) == Repeat('\t', m + 1) + t
  {
    assert Repeat('\t', m + 1) == "\t" + Repeat('\t', m);
  }

  /** A lone tab is kept. */
  lemma SingleTab(rest: string)
    requires rest == [] || rest[0] != '\t'
    ensures CollapseTabs(['\t'] + rest) == ['\t'] + CollapseTabs(rest)
  {
    var s := ['\t'] + rest;
    assert !StartsWith(s, "\t\t") by {
      assert |s| >= 2 ==> s[1] == rest[0];
    }
    ReplaceAllStepSkip(s, "\t\t", "\t");
    assert s[1..] == rest;
  }

  /** The left-to-right replacement agrees with the run-by-run reference. */
  lemma {:induction false} CollapseIsHalveRuns(s: string)
    ensures CollapseTabs(s) == HalveRuns(s)
    decreases |s|
  {
    if s == [] {
    } else if s[0] != '\t' {
      assert !StartsWith(s, "\t\t");
      CollapseIsHalveRuns(s[1..]);
    } else {
      var k := TabRun(s);
      assert s == Repeat('\t', k) + s[k..];
      RunCollapse(k, s[k..]);
      CollapseIsHalveRuns(s[k..]);
    }
  }

  lemma {:induction false} DropTabsAppend(a: string, b: string)
    ensures DropTabs(a + b) == DropTabs(a) + DropTabs(b)
  {
    if a != [] {
      assert (a + b)[1..] == a[1..] + b;
      DropTabsAppend(a[1..], b);
    } else {
      assert a + b == b;
    }
  }

  lemma {:induction false} DropTabsOfTabs(n: int)
    ensures DropTabs(Repeat('\t', n)) == []
  {
    if n > 0 {
      assert Repeat('\t', n)[1..] == Repeat('\t', n - 1);
      DropTabsOfTabs(n - 1);
    }
  }

  /** Removing every tab from the input and from the output gives the same
      string: the other characters and their order are untouched. */
  lemma {:induction false} NonTabsUntouched(s: string)
    ensures DropTabs(CollapseTabs(s)) == DropTabs(s)
    decreases |s|
  {
    CollapseIsHalveRuns(s);
    if s == [] {
    } else if s[0] != '\t' {
      NonTabsUntouched(s[1..]);
      CollapseIsHalveRuns(s[1..]);
      DropTabsAppend([s[0]], HalveRuns(s[1..]));
    } else {
      var k := TabRun(s);
      NonTabsUntouched(s[k..]);
      CollapseIsHalveRuns(s[k..]);
      DropTabsAppend(Repeat('\t', (k + 1) / 2), HalveRuns(s[k..]));
      DropTabsOfTabs((k + 1) / 2);
      assert s == Repeat('\t', k) + s[k..];
      DropTabsAppend(Repeat('\t', k), s[k..]);
      DropTabsOfTabs(k);
    }
  }

  /** The output is never longer, and it is exactly as long as the input
      when, and only when, the input holds no pair of adjacent tabs. */
  lemma {:induction false} LengthShrinksExactlyOnDoubleTab(s: string)
    ensures |CollapseTabs(s)| <= |s|
    ensures |CollapseTabs(s)| == |s| <==> !Contains(s, "\t\t")
    decreases |s|
  {
    ContainsStep(s, "\t\t");
    if s != [] {
      if StartsWith(s, "\t\t") {
        ReplaceAllShrinks(s[2..], "\t\t", "\t");
      } else {
        LengthShrinksExactlyOnDoubleTab(s[1..]);
      }
    }
  }

  /** The fixed points are exactly the contents without `"\t\t"`. */
  lemma FixedPoints(s: string)
    ensures CollapseTabs(s) == s <==> !Contains(s, "\t\t")
  {
    LengthShrinksExactlyOnDoubleTab(s);
    if !Contains(s, "\t\t") {
      ReplaceAllAbsent(s, "\t\t", "\t");
    }
  }
}
