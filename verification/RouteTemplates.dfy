/** Matching a request path against documented route templates (internal/apiref/candidates.go). */
module RouteTemplates {
  import opened Wrappers
  import Levenshtein

  predicate HasPrefix(s: string, p: string) { |p| <= |s| && s[..|p|] == p }

  predicate HasSuffix(s: string, p: string) { |p| <= |s| && s[|s| - |p|..] == p }

  predicate IsLabel(seg: string) { HasPrefix(seg, "{") && HasSuffix(seg, "}") }

  predicate IsZeroOrMore(seg: string) { IsLabel(seg) && HasSuffix(seg, "*}") }

  predicate IsGreedy(seg: string) { IsLabel(seg) && (HasSuffix(seg, "+}") || IsZeroOrMore(seg)) }

  predicate SegMatches(t: string, s: string) { if IsLabel(t) then s != "" else t == s }

  // ---- What a template means ------------------------------------------------

  /** The segments a greedy label may take: any for {Label*}; for {Label+} some, and not one empty one. */
  predicate Span(t: string, span: seq<string>) { IsZeroOrMore(t) || (span != [] && span != [""]) }

  /** A backtracking matcher: each greedy label takes any span it allows. */
  ghost predicate Fits(tpl: seq<string>, segs: seq<string>) {
    if tpl == [] then segs == []
    else if IsGreedy(tpl[0]) then
      exists k :: 0 <= k <= |segs| && Span(tpl[0], segs[..k]) && Fits(tpl[1..], segs[k..])
    else segs != [] && SegMatches(tpl[0], segs[0]) && Fits(tpl[1..], segs[1..])
  }

  function Greedy(tpl: seq<string>): nat {
    if tpl == [] then 0 else (if IsGreedy(tpl[0]) then 1 else 0) + Greedy(tpl[1..])
  }

  /** Segment by segment, nothing greedy. */
  predicate Aligned(tpl: seq<string>, segs: seq<string>) {
    |tpl| == |segs| && forall j :: 0 <= j < |tpl| ==> SegMatches(tpl[j], segs[j])
  }

  // ---- The one-pass matcher -------------------------------------------------

  /** What matchGreedy computes, with i the label's place. */
  predicate Cut(suffix: seq<string>, segs: seq<string>, i: nat, zeroOK: bool) {
    var end := |segs| - |suffix|;
    && i <= end
    && (zeroOK || (end != i && !(end == i + 1 && segs[i] == "")))
    && Aligned(suffix, segs[end..])
  }

  method MatchGreedy(suffix: seq<string>, segs: seq<string>, i: nat, zeroOK: bool) returns (m: bool)
    ensures m == Cut(suffix, segs, i, zeroOK)
  {
    var end := |segs| - |suffix|;
    if end < i || (!zeroOK && (end == i || (end == i + 1 && segs[i] == ""))) {
      return false;
    }
    for j := 0 to |suffix|
      invariant forall k :: 0 <= k < j ==> SegMatches(suffix[k], segs[end + k])
    {
      if !SegMatches(suffix[j], segs[end + j]) {
        assert segs[end..][j] == segs[end + j];
        return false;
      }
    }
    return true;
  }

  /** What matches computes from place i on. */
  predicate Accepts(tpl: seq<string>, segs: seq<string>, i: nat)
    requires i <= |tpl|
    decreases |tpl| - i
  {
    if i == |tpl| then |tpl| == |segs|
    else if IsGreedy(tpl[i]) then Cut(tpl[i + 1..], segs, i, IsZeroOrMore(tpl[i]))
    else i < |segs| && SegMatches(tpl[i], segs[i]) && Accepts(tpl, segs, i + 1)
  }

  method Matches(tpl: seq<string>, segs: seq<string>) returns (m: bool)
    ensures m == Accepts(tpl, segs, 0)
  {
    for i := 0 to |tpl|
      invariant Accepts(tpl, segs, 0) == Accepts(tpl, segs, i)
    {
      if IsGreedy(tpl[i]) {
        m := MatchGreedy(tpl[i + 1..], segs, i, IsZeroOrMore(tpl[i]));
        return;
      }
      if i >= |segs| || !SegMatches(tpl[i], segs[i]) {
        return false;
      }
    }
    return |tpl| == |segs|;
  }

  // ---- Agreement ------------------------------------------------------------

  lemma {:induction false} PlainFits(tpl: seq<string>, segs: seq<string>)
    requires Greedy(tpl) == 0
    ensures Fits(tpl, segs) <==> Aligned(tpl, segs)
  {
    if tpl != [] && segs != [] {
      PlainFits(tpl[1..], segs[1..]);
      if Aligned(tpl, segs) {
        assert forall j :: 0 <= j < |tpl[1..]| ==> tpl[1..][j] == tpl[j + 1] && segs[1..][j] == segs[j + 1];
      }
      if SegMatches(tpl[0], segs[0]) && Aligned(tpl[1..], segs[1..]) {
        assert forall j :: 0 < j < |tpl| ==> tpl[j] == tpl[1..][j - 1] && segs[j] == segs[1..][j - 1];
      }
    }
  }

  /** With nothing greedy after it, a greedy label takes exactly what the suffix leaves. */
  lemma CutFits(t: string, suffix: seq<string>, segs: seq<string>)
    requires IsGreedy(t) && Greedy(suffix) == 0
    ensures Cut(suffix, segs, 0, IsZeroOrMore(t)) <==> Fits([t] + suffix, segs)
  {
    var tpl, end := [t] + suffix, |segs| - |suffix|;
    assert tpl[1..] == suffix;
    if Cut(suffix, segs, 0, IsZeroOrMore(t)) {
      PlainFits(suffix, segs[end..]);
      assert Span(t, segs[..end]);
    }
    if Fits(tpl, segs) {
      var k :| 0 <= k <= |segs| && Span(t, segs[..k]) && Fits(suffix, segs[k..]);
      PlainFits(suffix, segs[k..]);
      assert k == end;
      assert end == 1 ==> segs[..1] == [segs[0]];
    }
  }

  lemma CutShift(suffix: seq<string>, segs: seq<string>, i: nat, zeroOK: bool)
    requires i <= |segs|
    ensures Cut(suffix, segs, i, zeroOK) <==> Cut(suffix, segs[i..], 0, zeroOK)
  {
    var end := |segs| - |suffix|;
    if i <= end {
      assert segs[i..][end - i..] == segs[end..];
    }
  }

  lemma {:induction false} AcceptsFrom(tpl: seq<string>, segs: seq<string>, i: nat)
    requires i <= |tpl| && i <= |segs| && Greedy(tpl[i..]) <= 1
    ensures Accepts(tpl, segs, i) <==> Fits(tpl[i..], segs[i..])
    decreases |tpl| - i
  {
    if i < |tpl| {
      assert tpl[i..][1..] == tpl[i + 1..];
      if IsGreedy(tpl[i]) {
        CutShift(tpl[i + 1..], segs, i, IsZeroOrMore(tpl[i]));
        CutFits(tpl[i], tpl[i + 1..], segs[i..]);
        assert tpl[i..] == [tpl[i]] + tpl[i + 1..];
      } else if i < |segs| {
        assert segs[i..][1..] == segs[i + 1..];
        AcceptsFrom(tpl, segs, i + 1);
      }
    }
  }

  /** A template with at most one greedy label matches in one pass exactly what backtracking matches. */
  lemma OneGreedyAgrees(tpl: seq<string>, segs: seq<string>)
    requires Greedy(tpl) <= 1
    ensures Accepts(tpl, segs, 0) <==> Fits(tpl, segs)
  {
    assert tpl[0..] == tpl && segs[0..] == segs;
    AcceptsFrom(tpl, segs, 0);
  }

  // ---- Several greedy labels ------------------------------------------------

  /** What a segment of the path could be: the literal itself, and "x" for a label. */
  function Sample(t: string): string { if IsLabel(t) then "x" else t }

  function Samples(tpl: seq<string>): seq<string> {
    if tpl == [] then [] else [Sample(tpl[0])] + Samples(tpl[1..])
  }

  /** A path of the template whose last greedy label takes "y" and then an empty segment. */
  function Witness(tpl: seq<string>): seq<string>
    requires Greedy(tpl) >= 1
  {
    if Greedy(tpl[1..]) >= 1 then [Sample(tpl[0])] + Witness(tpl[1..]) else ["y", ""] + Samples(tpl[1..])
  }

  lemma {:induction false} SamplesFit(tpl: seq<string>)
    ensures Fits(tpl, Samples(tpl)) && |Samples(tpl)| == |tpl|
  {
    if tpl != [] {
      SamplesFit(tpl[1..]);
      SampleStep(tpl, Samples(tpl[1..]));
    }
  }

  lemma SampleStep(tpl: seq<string>, rest: seq<string>)
    requires tpl != [] && Fits(tpl[1..], rest)
    ensures Fits(tpl, [Sample(tpl[0])] + rest)
  {
    var segs := [Sample(tpl[0])] + rest;
    assert segs[1..] == rest;
    if IsGreedy(tpl[0]) {
      assert segs[..1] == ["x"] && Span(tpl[0], segs[..1]);
    }
  }

  lemma {:induction false} WitnessFits(tpl: seq<string>)
    requires Greedy(tpl) >= 1
    ensures Fits(tpl, Witness(tpl))
  {
    if Greedy(tpl[1..]) >= 1 {
      WitnessFits(tpl[1..]);
      SampleStep(tpl, Witness(tpl[1..]));
    } else {
      SamplesFit(tpl[1..]);
      var segs := Witness(tpl);
      assert segs[..2] == ["y", ""] && segs[2..] == Samples(tpl[1..]);
      assert Span(tpl[0], segs[..2]);
    }
  }

  /** Where the last greedy label of the template stands, and the empty segment it takes. */
  lemma {:induction false} WitnessGap(tpl: seq<string>) returns (n: nat)
    requires Greedy(tpl) >= 1
    ensures n < |tpl| && |Witness(tpl)| == |tpl| + 1
    ensures IsGreedy(tpl[n]) && Greedy(tpl[n + 1..]) == 0 && Witness(tpl)[n + 1] == ""
  {
    if Greedy(tpl[1..]) >= 1 {
      n := WitnessGap(tpl[1..]);
      assert tpl[1..][n + 1..] == tpl[n + 2..];
      n := n + 1;
    } else {
      n := 0;
      SamplesFit(tpl[1..]);
    }
  }

  lemma {:induction false} NotAccepted(tpl: seq<string>, segs: seq<string>, i: nat, n: nat)
    requires i <= n < |tpl| && |segs| == |tpl| + 1 && segs[n + 1] == "" && IsLabel(tpl[n])
    requires exists g :: i <= g < n && IsGreedy(tpl[g])
    ensures !Accepts(tpl, segs, i)
    decreases n - i
  {
    if IsGreedy(tpl[i]) {
      var suffix, end := tpl[i + 1..], i + 2;
      assert suffix[n - i - 1] == tpl[n] && segs[end..][n - i - 1] == segs[n + 1];
      assert !SegMatches(suffix[n - i - 1], segs[end..][n - i - 1]);
    } else {
      NotAccepted(tpl, segs, i + 1, n);
    }
  }

  lemma {:induction false} EarlierGreedy(tpl: seq<string>, n: nat)
    requires n < |tpl| && Greedy(tpl[n + 1..]) == 0
    ensures Greedy(tpl) >= 2 ==> exists g :: 0 <= g < n && IsGreedy(tpl[g])
  {
    if n == 0 {
      assert tpl[1..] == tpl[n + 1..];
    } else if !IsGreedy(tpl[0]) && Greedy(tpl) >= 2 {
      assert tpl[1..][n..] == tpl[n + 1..];
      EarlierGreedy(tpl[1..], n - 1);
      var g :| 0 <= g < n - 1 && IsGreedy(tpl[1..][g]);
      assert IsGreedy(tpl[g + 1]);
    }
  }

  /** A template with two greedy labels or more misses a path that backtracking matches. */
  lemma SeveralGreedyDisagree(tpl: seq<string>)
    requires Greedy(tpl) >= 2
    ensures Fits(tpl, Witness(tpl)) && !Accepts(tpl, Witness(tpl), 0)
  {
    WitnessFits(tpl);
    var n := WitnessGap(tpl);
    EarlierGreedy(tpl, n);
    NotAccepted(tpl, Witness(tpl), 0, n);
  }

  /** The one-pass matcher agrees with backtracking on every path exactly for at most one greedy label. */
  lemma AgreesExactlyForOneGreedy(tpl: seq<string>)
    ensures (forall segs :: Accepts(tpl, segs, 0) <==> Fits(tpl, segs)) <==> Greedy(tpl) <= 1
  {
    if Greedy(tpl) <= 1 {
      forall segs
        ensures Accepts(tpl, segs, 0) <==> Fits(tpl, segs)
      {
        OneGreedyAgrees(tpl, segs);
      }
    } else {
      SeveralGreedyDisagree(tpl);
    }
  }

  /** Even then it never matches a path that backtracking refuses. */
  lemma {:induction false} NeverOvermatches(tpl: seq<string>, segs: seq<string>, i: nat)
    requires i <= |tpl| && i <= |segs| && Accepts(tpl, segs, i)
    ensures Fits(tpl[i..], segs[i..])
    decreases |tpl| - i
  {
    if i < |tpl| {
      assert tpl[i..][1..] == tpl[i + 1..];
      if IsGreedy(tpl[i]) {
        var end := |segs| - |tpl[i + 1..]|;
        AlignedFits(tpl[i + 1..], segs[end..]);
        assert segs[i..][end - i..] == segs[end..];
        assert Span(tpl[i], segs[i..][..end - i]);
      } else {
        assert segs[i..][1..] == segs[i + 1..];
        NeverOvermatches(tpl, segs, i + 1);
      }
    }
  }

  lemma {:induction false} AlignedFits(tpl: seq<string>, segs: seq<string>)
    requires Aligned(tpl, segs)
    ensures Fits(tpl, segs)
  {
    if tpl != [] {
      assert SegMatches(tpl[0], segs[0]);
      assert forall j :: 0 <= j < |tpl[1..]| ==> tpl[1..][j] == tpl[j + 1] && segs[1..][j] == segs[j + 1];
      AlignedFits(tpl[1..], segs[1..]);
      if IsGreedy(tpl[0]) {
        assert segs[..1] == [segs[0]] && Span(tpl[0], segs[..1]);
      }
    }
  }

  // ---- Near misses ----------------------------------------------------------

  /** Segment j is a literal the path misspells by at most two edits. */
  ghost predicate Misspelt(t: string, s: string) {
    !IsLabel(t) && t != s && Levenshtein.Distance(t, s) <= Levenshtein.MAX_EDIT_DISTANCE
  }

  /** One literal is misspelt, and every other segment matches a template with nothing greedy. */
  method NearMiss(tpl: seq<string>, segs: seq<string>) returns (near: bool)
    ensures near <==>
            && |tpl| == |segs| && Greedy(tpl) == 0
            && exists m :: 0 <= m < |tpl| && Misspelt(tpl[m], segs[m]) &&
                           forall j :: 0 <= j < |tpl| && j != m ==> SegMatches(tpl[j], segs[j])
  {
    if |tpl| != |segs| {
      return false;
    }
    var misses := 0;
    ghost var first, second := 0, 0;
    for i := 0 to |tpl|
      invariant forall j :: 0 <= j < i ==> !IsGreedy(tpl[j])
      invariant misses > 0 ==> first < i && Misspelt(tpl[first], segs[first])
      invariant misses > 1 ==> first < second < i && Misspelt(tpl[second], segs[second])
      invariant misses <= 1 ==> forall j :: 0 <= j < i && (misses == 0 || j != first) ==> SegMatches(tpl[j], segs[j])
    {
      if IsGreedy(tpl[i]) {
        SomeGreedy(tpl, i);
        return false;
      }
      if SegMatches(tpl[i], segs[i]) {
        continue;
      }
      if IsLabel(tpl[i]) {
        return false;
      }
      var within := WithinDistance(tpl[i], segs[i]);
      if !within {
        return false;
      }
      misses := misses + 1;
      if misses == 1 {
        first := i;
      } else {
        second := i;
      }
    }
    NoneGreedy(tpl);
    return misses == 1;
  }

  method WithinDistance(a: string, b: string) returns (within: bool)
    ensures within <==> Levenshtein.Distance(a, b) <= Levenshtein.MAX_EDIT_DISTANCE
  {
    within := Levenshtein.WithinEditDistance(a, b);
    var best := Levenshtein.CheapestScript(a, b);
    if within {
      var ops :| Levenshtein.Apply(a, ops) == Some(b) && Levenshtein.Cost(ops) <= 2;
      Levenshtein.ScriptsCostAtLeast(a, ops, b);
    }
  }

  lemma {:induction false} SomeGreedy(tpl: seq<string>, i: nat)
    requires i < |tpl| && IsGreedy(tpl[i])
    ensures Greedy(tpl) > 0
  {
    if i > 0 {
      SomeGreedy(tpl[1..], i - 1);
    }
  }

  lemma {:induction false} NoneGreedy(tpl: seq<string>)
    requires forall j :: 0 <= j < |tpl| ==> !IsGreedy(tpl[j])
    ensures Greedy(tpl) == 0
  {
    if tpl != [] {
      NoneGreedy(tpl[1..]);
    }
  }
}
