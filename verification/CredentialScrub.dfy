/** Replacing proxy credentials in text (internal/auth/egress.go). */
module CredentialScrub {
  import opened Sequences
  import opened StableSort
  import opened Wrappers

  const PLACEHOLDER := "[REDACTED:proxy-credential]"
  const MIN_SCRUBBED_CREDENTIAL_LEN := 4

  /** A half-open range of a string. */
  datatype Span = Span(start: nat, end: nat) {
    predicate Has(p: nat) { start <= p < end }
  }

  // ---- What is to be replaced -----------------------------------------------

  predicate OccursAt(s: string, form: string, i: nat) {
    i + |form| <= |s| && s[i..i + |form|] == form
  }

  /** Position p lies in an occurrence of a form, overlapping ones included. */
  ghost predicate Covered(s: string, forms: set<string>, p: nat) {
    exists form, i: nat :: form in forms && OccursAt(s, form, i) && i <= p < i + |form|
  }

  function FormSet(forms: seq<string>): set<string> { set f | f in forms }

  predicate NoneEmpty(forms: set<string>) { "" !in forms }

  ghost predicate InSome(spans: seq<Span>, p: nat) { exists sp <- spans :: sp.Has(p) }

  /** In order, each with text in it, and a gap between each and the next. */
  predicate Separated(spans: seq<Span>) {
    && (forall k :: 0 <= k < |spans| ==> spans[k].start < spans[k].end)
    && (forall k, m :: 0 <= k < m < |spans| ==> spans[k].end < spans[m].start)
  }

  /** The spans are the maximal runs of covered positions. */
  ghost predicate Runs(s: string, forms: set<string>, spans: seq<Span>) {
    Separated(spans) && forall p: nat :: InSome(spans, p) <==> Covered(s, forms, p)
  }

  ghost predicate SameCover(a: seq<Span>, b: seq<Span>) { forall p: nat :: InSome(a, p) <==> InSome(b, p) }

  /** There is one list of maximal runs: it is settled by the text and the set of forms. */
  lemma RunsUnique(s: string, forms: set<string>, a: seq<Span>, b: seq<Span>)
    requires Runs(s, forms, a) && Runs(s, forms, b)
    ensures a == b
  {
    hide InSome, Covered;
    CoverUnique(a, b);
  }

  lemma {:induction false} CoverUnique(a: seq<Span>, b: seq<Span>)
    requires Separated(a) && Separated(b) && SameCover(a, b)
    ensures a == b
  {
    hide Separated, SameCover;
    EmptyTogether(a, b);
    if a != [] && b != [] {
      CoverSymmetric(a, b);
      FirstRun(a, b);
      FirstRun(b, a);
      TailSeparated(a);
      TailSeparated(b);
      TailsSameCover(a, b);
      CoverUnique(a[1..], b[1..]);
      assert a == [a[0]] + a[1..] && b == [b[0]] + b[1..];
    }
  }

  lemma CoverSymmetric(a: seq<Span>, b: seq<Span>)
    requires SameCover(a, b)
    ensures SameCover(b, a)
  {
    hide InSome;
  }

  lemma EmptyTogether(a: seq<Span>, b: seq<Span>)
    requires Separated(a) && Separated(b) && SameCover(a, b)
    ensures a == [] <==> b == []
  {
    hide InSome;
    NonEmptyCovers(a);
    NonEmptyCovers(b);
  }

  lemma TailSeparated(a: seq<Span>)
    requires Separated(a) && a != []
    ensures Separated(a[1..])
  {
  }

  lemma TailsSameCover(a: seq<Span>, b: seq<Span>)
    requires a != [] && b != [] && Separated(a) && Separated(b) && SameCover(a, b) && a[0] == b[0]
    ensures SameCover(a[1..], b[1..])
  {
    hide InSome, Separated;
    forall p: nat
      ensures InSome(a[1..], p) <==> InSome(b[1..], p)
    {
      TailCover(a, p);
      TailCover(b, p);
    }
  }

  lemma NonEmptyCovers(a: seq<Span>)
    requires Separated(a)
    ensures a != [] ==> InSome(a, a[0].start)
    ensures a == [] ==> forall p: nat :: !InSome(a, p)
  {
    if a != [] {
      assert a[0].Has(a[0].start);
    }
  }

  /** The first run of b starts no later than that of a, and, from one start, ends no later. */
  lemma FirstRun(a: seq<Span>, b: seq<Span>)
    requires a != [] && b != [] && Separated(a) && Separated(b) && SameCover(a, b)
    ensures b[0].start <= a[0].start
    ensures a[0].start == b[0].start ==> b[0].end <= a[0].end
  {
    assert a[0].Has(a[0].start) && InSome(a, a[0].start);
    var sp :| sp in b && sp.Has(a[0].start);
    forall sq | sq in a
      ensures !sq.Has(a[0].end)
    {
      var k :| 0 <= k < |a| && a[k] == sq;
      assert k > 0 ==> a[0].end < a[k].start;
    }
    assert !InSome(a, a[0].end);
    assert b[0].Has(a[0].end) ==> InSome(b, a[0].end);
  }

  lemma TailCover(a: seq<Span>, p: nat)
    requires a != [] && Separated(a)
    ensures InSome(a[1..], p) <==> InSome(a, p) && p >= a[0].end
  {
    if InSome(a, p) && p >= a[0].end {
      var sp :| sp in a && sp.Has(p);
      assert sp != a[0];
      assert sp in a[1..];
    }
    if InSome(a[1..], p) {
      var sp :| sp in a[1..] && sp.Has(p);
      var k :| 0 <= k < |a[1..]| && a[1..][k] == sp;
      assert sp == a[k + 1];
    }
  }

  // ---- Finding and merging --------------------------------------------------

  /** strings.Index of form in s[from:], counted from the start of s; -1 when there is none. */
  method IndexFrom(s: string, form: string, from: nat) returns (i: int)
    requires from <= |s|
    ensures i == -1 ==> forall k :: from <= k ==> !OccursAt(s, form, k)
    ensures i != -1 ==> i >= from && OccursAt(s, form, i) && forall k :: from <= k < i ==> !OccursAt(s, form, k)
  {
    for k := from to |s| + 1
      invariant forall m :: from <= m < k ==> !OccursAt(s, form, m)
    {
      if k + |form| <= |s| && s[k..k + |form|] == form {
        return k;
      }
    }
    return -1;
  }

  predicate Earlier(a: Span, b: Span) { a.start < b.start }

  /** sort.Slice by start; nothing below depends on how it orders equal starts. */
  method SortByStart(found: seq<Span>) returns (sorted: seq<Span>)
    ensures multiset(sorted) == multiset(found)
    ensures forall i, j :: 0 <= i < j < |sorted| ==> sorted[i].start <= sorted[j].start
  {
    SortSorts(Earlier, found);
    sorted := Sort(Earlier, found);
  }

  /** The occurrences of one form, each at its own start. */
  ghost predicate Occurrence(s: string, forms: seq<string>, n: nat, sp: Span)
    requires n <= |forms|
  {
    exists m :: 0 <= m < n && OccursAt(s, forms[m], sp.start) && sp.end == sp.start + |forms[m]|
  }

  method FindAll(s: string, forms: seq<string>) returns (found: seq<Span>)
    requires forall f <- forms :: f != ""
    ensures forall sp :: sp in found <==> Occurrence(s, forms, |forms|, sp)
  {
    found := [];
    for n := 0 to |forms|
      invariant forall sp :: sp in found <==> Occurrence(s, forms, n, sp)
    {
      var form := forms[n];
      assert form in forms;
      ghost var before := found;
      var from := 0;
      while true
        invariant from <= |s|
        invariant forall sp :: sp in found <==>
                                 sp in before ||
                                 (sp.start < from && OccursAt(s, form, sp.start) && sp.end == sp.start + |form|)
        decreases |s| - from
      {
        var i := IndexFrom(s, form, from);
        if i < 0 {
          break;
        }
        found := found + [Span(i, i + |form|)];
        from := i + 1;
      }
      forall sp
        ensures sp in found <==> Occurrence(s, forms, n + 1, sp)
      {
        if sp in found && sp !in before {
          assert OccursAt(s, forms[n], sp.start);
        }
        if Occurrence(s, forms, n + 1, sp) && sp !in before {
          assert OccursAt(s, form, sp.start) && sp.start < from;
        }
      }
    }
  }

  method Merge(found: seq<Span>) returns (merged: seq<Span>)
    requires forall sp <- found :: sp.start < sp.end
    requires forall i, j :: 0 <= i < j < |found| ==> found[i].start <= found[j].start
    ensures Separated(merged)
    ensures forall p: nat :: InSome(merged, p) <==> InSome(found, p)
  {
    merged := [];
    for i := 0 to |found|
      invariant Separated(merged)
      invariant merged != [] ==> i > 0 && merged[|merged| - 1].start <= found[i - 1].start
      invariant forall p: nat :: InSome(merged, p) <==> InSome(found[..i], p)
    {
      var sp, n := found[i], |merged|;
      assert found[..i + 1] == found[..i] + [sp] && sp in found;
      ghost var before := merged;
      if n > 0 && sp.start <= merged[n - 1].end {
        var last := merged[n - 1];
        merged := merged[n - 1 := Span(last.start, if last.end >= sp.end then last.end else sp.end)];
        forall p: nat
          ensures InSome(merged, p) <==> InSome(found[..i + 1], p)
        {
          Extended(before, sp, p);
          AddedCover(found[..i], sp, p);
        }
      } else {
        merged := merged + [sp];
        forall p: nat
          ensures InSome(merged, p) <==> InSome(found[..i + 1], p)
        {
          AddedCover(before, sp, p);
          AddedCover(found[..i], sp, p);
        }
      }
    }
    assert found[..|found|] == found;
  }

  lemma AddedCover(spans: seq<Span>, sp: Span, p: nat)
    ensures InSome(spans + [sp], p) <==> InSome(spans, p) || sp.Has(p)
  {
    if InSome(spans, p) {
      var q :| q in spans && q.Has(p);
      assert q in spans + [sp];
    }
    assert sp in spans + [sp];
  }

  lemma Extended(spans: seq<Span>, sp: Span, p: nat)
    requires spans != [] && spans[|spans| - 1].start <= sp.start <= spans[|spans| - 1].end
    ensures var n := |spans| - 1;
            InSome(spans[n := Span(spans[n].start, if spans[n].end >= sp.end then spans[n].end else sp.end)], p) <==>
            InSome(spans, p) || sp.Has(p)
  {
    var n := |spans| - 1;
    var wide := Span(spans[n].start, if spans[n].end >= sp.end then spans[n].end else sp.end);
    assert spans == spans[..n] + [spans[n]] && spans[n := wide] == spans[..n] + [wide];
    AddedCover(spans[..n], spans[n], p);
    AddedCover(spans[..n], wide, p);
  }

  /** credentialSpans: the maximal runs of covered positions. */
  method CredentialSpans(s: string, forms: seq<string>) returns (spans: seq<Span>)
    requires forall f <- forms :: f != ""
    ensures Runs(s, FormSet(forms), spans)
  {
    var found := FindAll(s, forms);
    forall p: nat
      ensures InSome(found, p) <==> Covered(s, FormSet(forms), p)
    {
      FoundCovers(s, forms, found, p);
    }
    if |found| == 0 {
      return [];
    }
    var sorted := SortByStart(found);
    forall sp
      ensures sp in sorted <==> sp in found
    {
      assert sp in multiset(sorted) <==> sp in multiset(found);
    }
    forall sp | sp in sorted
      ensures sp.start < sp.end
    {
      assert Occurrence(s, forms, |forms|, sp);
      var m :| 0 <= m < |forms| && sp.end == sp.start + |forms[m]|;
      assert forms[m] in forms;
    }
    spans := Merge(sorted);
  }

  lemma FoundCovers(s: string, forms: seq<string>, found: seq<Span>, p: nat)
    requires forall sp :: sp in found <==> Occurrence(s, forms, |forms|, sp)
    ensures InSome(found, p) <==> Covered(s, FormSet(forms), p)
  {
    if InSome(found, p) {
      var sp :| sp in found && sp.Has(p);
      var m :| 0 <= m < |forms| && OccursAt(s, forms[m], sp.start) && sp.end == sp.start + |forms[m]|;
      assert forms[m] in FormSet(forms);
    }
    if Covered(s, FormSet(forms), p) {
      var form, i: nat :| form in forms && OccursAt(s, form, i) && i <= p < i + |form|;
      var m :| 0 <= m < |forms| && forms[m] == form;
      assert OccursAt(s, forms[m], i);
      assert Occurrence(s, forms, |forms|, Span(i, i + |form|));
      assert Span(i, i + |form|) in found && Span(i, i + |form|).Has(p);
    }
  }

  // ---- The scrubbed text ----------------------------------------------------

  /**
    The text from position i on: every uncovered character in its place, and one
    placeholder where a run of covered ones begins.
   */
  ghost function Masked(s: string, forms: set<string>, i: nat): string
    requires i <= |s|
    decreases |s| - i
  {
    if i == |s| then ""
    else
      (if !Covered(s, forms, i) then [s[i]]
       else if i == 0 || !Covered(s, forms, i - 1) then PLACEHOLDER
       else "") + Masked(s, forms, i + 1)
  }

  lemma MaskedStep(s: string, forms: set<string>, i: nat)
    requires i <= |s|
    ensures i == |s| ==> Masked(s, forms, i) == ""
    ensures i < |s| && !Covered(s, forms, i) ==> Masked(s, forms, i) == [s[i]] + Masked(s, forms, i + 1)
    ensures i < |s| && Covered(s, forms, i) && (i == 0 || !Covered(s, forms, i - 1)) ==>
              Masked(s, forms, i) == PLACEHOLDER + Masked(s, forms, i + 1)
    ensures 0 < i < |s| && Covered(s, forms, i) && Covered(s, forms, i - 1) ==>
              Masked(s, forms, i) == Masked(s, forms, i + 1)
  {
    hide Covered;
  }

  lemma {:induction false} MaskedKept(s: string, forms: set<string>, i: nat, j: nat)
    requires i <= j <= |s| && forall p :: i <= p < j ==> !Covered(s, forms, p)
    ensures Masked(s, forms, i) == s[i..j] + Masked(s, forms, j)
    decreases j - i
  {
    hide Covered, Masked;
    if i < j {
      MaskedKept(s, forms, i + 1, j);
      MaskedStep(s, forms, i);
      assert s[i..j] == [s[i]] + s[i + 1..j];
      Regroup([s[i]], s[i + 1..j], Masked(s, forms, j));
    }
  }

  lemma {:induction false} MaskedRun(s: string, forms: set<string>, i: nat, j: nat)
    requires 0 < i <= j <= |s| && forall p :: i - 1 <= p < j ==> Covered(s, forms, p)
    ensures Masked(s, forms, i) == Masked(s, forms, j)
    decreases j - i
  {
    hide Covered, Masked;
    if i < j {
      MaskedStep(s, forms, i);
      MaskedRun(s, forms, i + 1, j);
    }
  }

  lemma MaskedSpan(s: string, forms: set<string>, spans: seq<Span>, k: nat, last: nat)
    requires Runs(s, forms, spans) && k < |spans|
    requires last == if k == 0 then 0 else spans[k - 1].end
    ensures last <= spans[k].start < spans[k].end <= |s|
    ensures Masked(s, forms, last) == s[last..spans[k].start] + PLACEHOLDER + Masked(s, forms, spans[k].end)
  {
    hide Covered, Masked;
    var sp := spans[k];
    SpanCovered(s, forms, spans, k, sp.end - 1);
    BetweenUncovered(s, forms, spans, k);
    MaskedKept(s, forms, last, sp.start);
    forall p | sp.start <= p < sp.end
      ensures Covered(s, forms, p)
    {
      SpanCovered(s, forms, spans, k, p);
    }
    MaskedRun(s, forms, sp.start + 1, sp.end);
    MaskedStep(s, forms, sp.start);
    Regroup(s[last..sp.start], PLACEHOLDER, Masked(s, forms, sp.end));
  }

  lemma SpanCovered(s: string, forms: set<string>, spans: seq<Span>, k: nat, p: nat)
    requires Runs(s, forms, spans) && k < |spans| && spans[k].Has(p)
    ensures Covered(s, forms, p) && p < |s|
  {
    assert InSome(spans, p);
  }

  lemma BetweenUncovered(s: string, forms: set<string>, spans: seq<Span>, k: nat)
    requires Runs(s, forms, spans) && k <= |spans|
    ensures forall p: nat :: (k > 0 ==> spans[k - 1].end <= p) && (k < |spans| ==> p < spans[k].start) ==>
                               !Covered(s, forms, p)
  {
    hide Covered;
    forall p: nat, sp | (k > 0 ==> spans[k - 1].end <= p) && (k < |spans| ==> p < spans[k].start) && sp in spans
      ensures !sp.Has(p)
    {
      var m :| 0 <= m < |spans| && spans[m] == sp;
      if m < k {
        assert m == k - 1 || spans[m].end < spans[k - 1].start;
      } else {
        assert m == k || spans[k].end < spans[m].start;
      }
    }
  }

  /** Scrub */
  method Scrub(s: string, secrets: seq<string>) returns (r: string)
    requires forall f <- secrets :: f != ""
    ensures r == Masked(s, FormSet(secrets), 0)
    ensures (forall p: nat :: !Covered(s, FormSet(secrets), p)) ==> r == s
  {
    hide Masked, Covered;
    ghost var forms := FormSet(secrets);
    MaskedStep(s, forms, |s|);
    var spans := CredentialSpans(s, secrets);
    if |spans| == 0 {
      BetweenUncovered(s, forms, spans, 0);
      MaskedKept(s, forms, 0, |s|);
      assert s[0..|s|] + "" == s;
      return s;
    }
    assert spans[0].Has(spans[0].start) && InSome(spans, spans[0].start);
    r := "";
    var last := 0;
    for k := 0 to |spans|
      invariant last == if k == 0 then 0 else spans[k - 1].end
      invariant last <= |s|
      invariant r + Masked(s, forms, last) == Masked(s, forms, 0)
    {
      MaskedSpan(s, forms, spans, k, last);
      Regroup(r, s[last..spans[k].start] + PLACEHOLDER, Masked(s, forms, spans[k].end));
      Regroup(r, s[last..spans[k].start], PLACEHOLDER);
      r := r + s[last..spans[k].start];
      r := r + PLACEHOLDER;
      last := spans[k].end;
    }
    BetweenUncovered(s, forms, spans, |spans|);
    MaskedKept(s, forms, last, |s|);
    assert s[last..|s|] + "" == s[last..];
    r := r + s[last..];
  }

  /** No stretch of text that is kept contains a form. */
  lemma KeptTextIsClean(s: string, forms: set<string>, i: nat, j: nat, form: string, k: nat)
    requires NoneEmpty(forms) && form in forms
    requires i <= j <= |s| && forall p :: i <= p < j ==> !Covered(s, forms, p)
    ensures !OccursAt(s[i..j], form, k)
  {
    assert form != "";
    if OccursAt(s[i..j], form, k) {
      SliceOfSlice(s, i, j, k, k + |form|);
      assert OccursAt(s, form, i + k);
      assert Covered(s, forms, i + k);
    }
  }

  // ---- The forms ------------------------------------------------------------

  /** A proxy URL's userinfo, with its spelling in the URL. */
  datatype Userinfo = Userinfo(user: string, pass: string, spelled: string)

  /** f spells the credential: the pair, its token, or a part long enough; each plain or as Go quotes it. */
  predicate Spells(u: Userinfo, token: string -> string, quote: string -> string, f: string) {
    var pair := u.user + ":" + u.pass;
    || f == token(pair) || f == pair || f == quote(pair)
    || exists part <- [u.user, u.pass, u.spelled] ::
         |part| >= MIN_SCRUBBED_CREDENTIAL_LEN && (f == part || f == quote(part))
  }

  /** Go sends no credential for an empty user and password. */
  predicate HasCredential(u: Option<Userinfo>) { u.Some? && (u.value.user != "" || u.value.pass != "") }

  /** credentialForms: exactly the spellings, each once; token and quote stand for base64 and Go quoting. */
  method CredentialForms(u: Option<Userinfo>, token: string -> string, quote: string -> string)
    returns (forms: seq<string>)
    requires forall s: string :: s != "" ==> token(s) != "" && quote(s) != ""
    ensures forall f <- forms :: f != ""
    ensures forall i, j :: 0 <= i < j < |forms| ==> forms[i] != forms[j]
    ensures forall f :: f in forms <==> HasCredential(u) && Spells(u.value, token, quote, f)
  {
    if u.None? || (u.value.user == "" && u.value.pass == "") {
      return [];
    }
    var pair := u.value.user + ":" + u.value.pass;
    assert |pair| > 0;
    forms := [token(pair)];
    var candidates := Candidates(u.value, quote);
    for i := 0 to |candidates|
      invariant forall f <- forms :: f != ""
      invariant forall f :: f in forms <==> f == token(pair) || f in candidates[..i]
      invariant forall a, b :: 0 <= a < b < |forms| ==> forms[a] != forms[b]
    {
      assert candidates[..i + 1] == candidates[..i] + [candidates[i]];
      if candidates[i] !in forms {
        assert candidates[i] in candidates;
        forms := forms + [candidates[i]];
      }
    }
    assert candidates[..|candidates|] == candidates;
  }

  /** plainForms of the parts, then quotedForms of the pair. */
  method Candidates(u: Userinfo, quote: string -> string) returns (candidates: seq<string>)
    requires forall s: string :: s != "" ==> quote(s) != ""
    ensures forall c <- candidates :: c != ""
    ensures forall f :: f in candidates <==>
                          var pair := u.user + ":" + u.pass;
                          || f == pair || f == quote(pair)
                          || exists part <- [u.user, u.pass, u.spelled] ::
                               |part| >= MIN_SCRUBBED_CREDENTIAL_LEN && (f == part || f == quote(part))
  {
    var parts := [u.user, u.pass, u.spelled];
    candidates := [];
    for i := 0 to |parts|
      invariant forall c <- candidates :: c != ""
      invariant forall f :: f in candidates <==>
                              exists part <- parts[..i] ::
                                |part| >= MIN_SCRUBBED_CREDENTIAL_LEN && (f == part || f == quote(part))
    {
      assert parts[..i + 1] == parts[..i] + [parts[i]];
      if |parts[i]| >= MIN_SCRUBBED_CREDENTIAL_LEN {
        candidates := candidates + [parts[i], quote(parts[i])];
      }
    }
    assert parts[..|parts|] == parts;
    var pair := u.user + ":" + u.pass;
    assert |pair| > 0;
    candidates := candidates + [pair, quote(pair)];
  }
}
