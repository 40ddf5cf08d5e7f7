/**
  Writing redactions back into escaped text (internal/redact/encoded.go): edits aligns a
  redacted text with the original and lists the parts that changed.
 */
module EncodedEdits {
  import opened Sequences

  newtype byte = b: int | 0 <= b < 256

  type text = seq<byte>

  const SPACE: byte := 32
  const QUOTE: byte := 34
  const APOSTROPHE: byte := 39
  const BACKSLASH: byte := 92

  /** A run of placeholders in the redacted text. */
  datatype Run = Run(start: nat, end: nat)

  datatype Edit = Edit(start: nat, end: nat, repl: text)

  datatype Span = Span(start: nat, end: nat, repl: text)

  // ---- Characters -----------------------------------------------------------

  predicate Tail(b: byte) { 0x80 <= b <= 0xBF }

  /** The length of the valid UTF-8 character (RFC 3629, section 4) that opens s, and 1 when there is none. */
  function CharSize(s: text): nat
    requires s != []
  {
    var b := s[0];
    if 0xC2 <= b <= 0xDF && |s| >= 2 && Tail(s[1]) then 2
    else if |s| >= 3 && 0xE0 <= b <= 0xEF && Tail(s[1]) && Tail(s[2])
            && (b == 0xE0 ==> s[1] >= 0xA0) && (b == 0xED ==> s[1] <= 0x9F) then 3
    else if |s| >= 4 && 0xF0 <= b <= 0xF4 && Tail(s[1]) && Tail(s[2]) && Tail(s[3])
            && (b == 0xF0 ==> s[1] >= 0x90) && (b == 0xF4 ==> s[1] <= 0x8F) then 4
    else 1
  }

  /** The length of the character s ends with; a byte that ends no valid character counts as one. */
  function LastCharSize(s: text): (n: nat)
    requires s != []
    ensures 1 <= n <= |s|
  {
    if |s| >= 2 && CharSize(s[|s| - 2..]) == 2 then 2
    else if |s| >= 3 && CharSize(s[|s| - 3..]) == 3 then 3
    else if |s| >= 4 && CharSize(s[|s| - 4..]) == 4 then 4
    else 1
  }

  // ---- Common ends ----------------------------------------------------------

  function PrefixLength(a: text, b: text): (n: nat)
    ensures n <= |a| && n <= |b| && a[..n] == b[..n]
    ensures n < |a| && n < |b| ==> a[n] != b[n]
  {
    if a == [] || b == [] || a[0] != b[0] then 0
    else
      var n := PrefixLength(a[1..], b[1..]) + 1;
      assert a[..n] == [a[0]] + a[1..][..n - 1] && b[..n] == [b[0]] + b[1..][..n - 1];
      n
  }

  lemma {:induction false} PrefixLengthIs(a: text, b: text, n: nat)
    requires n <= |a| && n <= |b| && a[..n] == b[..n] && (n < |a| && n < |b| ==> a[n] != b[n])
    ensures PrefixLength(a, b) == n
  {
    if n > 0 {
      assert a[..n][0] == b[..n][0];
      assert a[1..][..n - 1] == a[..n][1..] && b[1..][..n - 1] == b[..n][1..];
      PrefixLengthIs(a[1..], b[1..], n - 1);
    }
  }

  method CommonPrefix(a: text, b: text) returns (n: nat)
    ensures n == PrefixLength(a, b)
  {
    n := 0;
    while n < |a| && n < |b| && a[n] == b[n]
      invariant n <= |a| && n <= |b| && a[..n] == b[..n]
    {
      n := n + 1;
    }
    PrefixLengthIs(a, b, n);
  }

  predicate EndsWith(s: text, t: text) { |t| <= |s| && s[|s| - |t|..] == t }

  /** How many bytes at the end a and b share, counted in whole characters of a. */
  function SuffixLength(a: text, b: text): (n: nat)
    ensures n <= |a| && n <= |b| && a[|a| - n..] == b[|b| - n..]
  {
    if a == [] then 0
    else
      hide LastCharSize;
      var k := LastCharSize(a);
      if !EndsWith(b, a[|a| - k..]) then 0
      else
        var a', b' := a[..|a| - k], b[..|b| - k];
        var m := SuffixLength(a', b');
        TailGrows(a, b, m, k);
        m + k
  }

  lemma TailGrows(a: text, b: text, m: nat, k: nat)
    requires m + k <= |a| && m + k <= |b| && a[|a| - k..] == b[|b| - k..]
    requires a[..|a| - k][|a| - k - m..] == b[..|b| - k][|b| - k - m..]
    ensures a[|a| - (m + k)..] == b[|b| - (m + k)..]
  {
    SplitTail(a, m, k);
    SplitTail(b, m, k);
  }

  lemma TailShrinks(a: text, b: text, m: nat, k: nat)
    requires k <= m <= |a| && m <= |b| && a[|a| - m..] == b[|b| - m..]
    ensures a[|a| - k..] == b[|b| - k..]
    ensures a[..|a| - k][|a| - m..] == b[..|b| - k][|b| - m..]
  {
    assert a[|a| - k..] == a[|a| - m..][m - k..];
    assert b[|b| - k..] == b[|b| - m..][m - k..];
    assert a[..|a| - k][|a| - m..] == a[|a| - m..][..m - k];
    assert b[..|b| - k][|b| - m..] == b[|b| - m..][..m - k];
  }

  lemma SplitTail(s: text, m: nat, k: nat)
    requires m + k <= |s|
    ensures s[|s| - (m + k)..] == s[..|s| - k][|s| - k - m..] + s[|s| - k..]
  {
  }

  /** The last m bytes of a are whole characters, read from the end. */
  predicate WholeChars(a: text, m: nat)
    requires m <= |a|
  {
    m == 0 || (hide LastCharSize; LastCharSize(a) <= m && WholeChars(a[..|a| - LastCharSize(a)], m - LastCharSize(a)))
  }

  lemma SuffixGoesOn(a: text, b: text, k: nat)
    requires a != [] && k == LastCharSize(a)
    ensures EndsWith(b, a[|a| - k..]) ==> SuffixLength(a, b) == SuffixLength(a[..|a| - k], b[..|b| - k]) + k
  {
    hide LastCharSize;
  }

  /** No longer run of whole characters of a ends b too. */
  lemma {:induction false} SuffixLongest(a: text, b: text, m: nat)
    requires m <= |a| && m <= |b| && WholeChars(a, m) && a[|a| - m..] == b[|b| - m..]
    ensures m <= SuffixLength(a, b)
  {
    hide LastCharSize;
    if m > 0 {
      var k := LastCharSize(a);
      SuffixGoesOn(a, b, k);
      hide SuffixLength;
      TailShrinks(a, b, m, k);
      SuffixLongest(a[..|a| - k], b[..|b| - k], m - k);
    }
  }

  lemma {:induction false} SuffixWhole(a: text, b: text)
    ensures WholeChars(a, SuffixLength(a, b))
  {
    hide LastCharSize;
    if a != [] {
      var k := LastCharSize(a);
      if EndsWith(b, a[|a| - k..]) {
        SuffixWhole(a[..|a| - k], b[..|b| - k]);
      }
    }
  }

  method CommonSuffix(a: text, b: text) returns (n: nat)
    ensures n == SuffixLength(a, b)
  {
    hide LastCharSize;
    n := 0;
    assert a[..|a|] == a && b[..|b|] == b;
    while true
      invariant n <= |a| && n <= |b|
      invariant SuffixLength(a, b) == n + SuffixLength(a[..|a| - n], b[..|b| - n])
      decreases |a| - n
    {
      var a', b' := a[..|a| - n], b[..|b| - n];
      if a' == [] || !EndsWith(b', a'[|a'| - LastCharSize(a')..]) {
        return;
      }
      var k := LastCharSize(a');
      assert a'[..|a'| - k] == a[..|a| - (n + k)] && b'[..|b'| - k] == b[..|b| - (n + k)];
      n := n + k;
    }
  }

  // ---- Placing the text between two runs ------------------------------------

  predicate FoundAt(s: text, t: text, k: nat) { k + |t| <= |s| && s[k..k + |t|] == t }

  /** Where t first occurs in s, and -1 when it does not. */
  function IndexOf(s: text, t: text, from: nat): (k: int)
    requires from <= |s|
    ensures k == -1 <==> forall m: nat :: from <= m ==> !FoundAt(s, t, m)
    ensures k != -1 ==> k >= from && FoundAt(s, t, k) && forall m: nat :: from <= m < k ==> !FoundAt(s, t, m)
    decreases |s| - from
  {
    if FoundAt(s, t, from) then from else if from == |s| then -1 else IndexOf(s, t, from + 1)
  }

  function TrimSpaces(s: text): (t: text)
    ensures |t| <= |s| && s[..|t|] == t && forall k :: |t| <= k < |s| ==> s[k] == SPACE
  {
    if s != [] && s[|s| - 1] == SPACE then TrimSpaces(s[..|s| - 1]) else s
  }

  /** The quote the shell pass may write after a placeholder, in either spelling. */
  function QuoteLength(s: text): (q: nat)
    ensures q <= |s|
  {
    if |s| >= 2 && s[0] == BACKSLASH && s[1] == QUOTE then 2
    else if |s| >= 1 && s[0] == APOSTROPHE then 1
    else 0
  }

  /** The offset in rest of the literal text, or -1, and the length of the quote it may open with. */
  function Place(rest: text, lit: text): (r: (int, nat))
    ensures r.1 <= |lit|
    ensures r.0 == -1 || (0 <= r.0 <= |rest|)
  {
    var k := IndexOf(rest, lit, 0);
    if k >= 0 then (k, 0)
    else
      var t := TrimSpaces(lit);
      var q := QuoteLength(t);
      (IndexOf(rest, t[q..], 0), q)
  }

  /** The text placed is in rest, at its first place, up to the spaces that end it. */
  lemma PlaceFinds(rest: text, lit: text)
    ensures var (k, q) := Place(rest, lit);
            k >= 0 ==>
              exists n :: q <= n <= |lit| && (forall m :: n <= m < |lit| ==> lit[m] == SPACE) &&
                          FoundAt(rest, lit[q..n], k) && forall m: nat :: m < k ==> !FoundAt(rest, lit[q..n], m)
  {
    var (k, q) := Place(rest, lit);
    var t := TrimSpaces(lit);
    if IndexOf(rest, lit, 0) >= 0 {
      assert lit[0..|lit|] == lit;
    } else {
      assert lit[q..|t|] == t[q..];
    }
  }

  // ---- The alignment --------------------------------------------------------

  /** The runs are in order, do not overlap, and end with an empty one at the end of the text. */
  predicate RunsOf(runs: seq<Run>, red: text) {
    && runs != [] && runs[|runs| - 1] == Run(|red|, |red|)
    && (forall n :: 0 <= n < |runs| ==> runs[n].start <= runs[n].end <= |red|)
    && (forall n :: 0 <= n < |runs| - 1 ==> runs[n].end <= runs[n + 1].start)
  }

  /** One turn of the loop: an edit, and how far d and red are then read; Done is the last one. */
  datatype Turn = More(edit: Edit, i: nat, j: nat) | Done(edit: Edit)

  /** Where the text between run n and the next goes in d from i on; the last run has none to place. */
  function Placed(runs: seq<Run>, d: text, red: text, n: nat, i: nat): (r: (int, nat))
    requires RunsOf(runs, red) && n < |runs| && i <= |d|
    ensures r.0 >= 0 ==> n + 2 < |runs| && i + r.0 <= |d| && runs[n].end + r.1 <= runs[n + 1].start
  {
    if n + 2 < |runs| then Place(d[i..], red[runs[n].end..runs[n + 1].start]) else (-1, 0)
  }

  /** A turn that has kept d up to i and red up to j: it goes on past the text placed, or writes the rest. */
  function TurnPast(runs: seq<Run>, d: text, red: text, n: nat, i: nat, j: nat): (t: Turn)
    requires RunsOf(runs, red) && n < |runs| && i <= |d| && j <= runs[n].start
    ensures t.More? ==> n + 1 < |runs| && t.i <= |d| && t.j <= runs[n + 1].start
  {
    var r := Placed(runs, d, red, n, i);
    if r.0 < 0 then
      var x := SuffixLength(d[i..], red[j..]);
      Done(Edit(i, |d| - x, red[j..|red| - x]))
    else
      var end := runs[n].end + r.1;
      More(Edit(i, i + r.0, red[j..end]), i + r.0, end)
  }

  function TurnAt(runs: seq<Run>, d: text, red: text, n: nat, i: nat, j: nat): (t: Turn)
    requires RunsOf(runs, red) && n < |runs| && i <= |d| && j <= runs[n].start
    ensures t.More? ==> n + 1 < |runs| && t.i <= |d| && t.j <= runs[n + 1].start
  {
    var c := PrefixLength(d[i..], red[j..runs[n].start]);
    TurnPast(runs, d, red, n, i + c, j + c)
  }

  /** The edits from run n on, with d read up to i and red up to j. */
  function Align(runs: seq<Run>, d: text, red: text, n: nat, i: nat, j: nat): seq<Edit>
    requires RunsOf(runs, red) && n < |runs| && i <= |d| && j <= runs[n].start
    decreases |runs| - n
  {
    var t := TurnAt(runs, d, red, n, i, j);
    [t.edit] + if t.More? then Align(runs, d, red, n + 1, t.i, t.j) else []
  }

  /** One turn of edits, as its loop body computes it. */
  method TakeTurn(runs: seq<Run>, d: text, red: text, n: nat, i: nat, j: nat) returns (t: Turn)
    requires RunsOf(runs, red) && n < |runs| && i <= |d| && j <= runs[n].start
    ensures t == TurnAt(runs, d, red, n, i, j)
  {
    hide PrefixLength, TurnPast;
    var c := CommonPrefix(d[i..], red[j..runs[n].start]);
    t := FinishTurn(runs, d, red, n, i + c, j + c);
  }

  /** The rest of the turn, past the common prefix. */
  method FinishTurn(runs: seq<Run>, d: text, red: text, n: nat, i: nat, j: nat) returns (t: Turn)
    requires RunsOf(runs, red) && n < |runs| && i <= |d| && j <= runs[n].start
    ensures t == TurnPast(runs, d, red, n, i, j)
  {
    hide SuffixLength, Place;
    var k, end := -1, runs[n].end;
    if n + 2 < |runs| {
      var at := Place(d[i..], red[end..runs[n + 1].start]);
      k := at.0;
      end := end + at.1;
    }
    if k < 0 {
      var x := CommonSuffix(d[i..], red[j..]);
      return Done(Edit(i, |d| - x, red[j..|red| - x]));
    }
    return More(Edit(i, i + k, red[j..end]), i + k, end);
  }

  method Edits(marks: seq<Run>, d: text, red: text) returns (out: seq<Edit>)
    requires RunsOf(marks + [Run(|red|, |red|)], red)
    ensures out == Align(marks + [Run(|red|, |red|)], d, red, 0, 0, 0)
  {
    hide TurnAt;
    out := [];
    var i: nat, j: nat := 0, 0;
    var runs := marks + [Run(|red|, |red|)];
    var n := 0;
    while true
      invariant n < |runs| && i <= |d| && j <= runs[n].start
      invariant out + Align(runs, d, red, n, i, j) == Align(runs, d, red, 0, 0, 0)
      decreases |runs| - n
    {
      ghost var before := out;
      var t := TakeTurn(runs, d, red, n, i, j);
      out := out + [t.edit];
      if t.Done? {
        assert before + [t.edit] == before + ([t.edit] + []);
        return;
      }
      Regroup(before, [t.edit], Align(runs, d, red, n + 1, t.i, t.j));
      i, j, n := t.i, t.j, n + 1;
    }
  }

  // ---- What the edits are ---------------------------------------------------

  /** In order, not overlapping, and inside d from lo on. */
  predicate Ordered(es: seq<Edit>, lo: nat, hi: nat) {
    if es == [] then lo <= hi
    else lo <= es[0].start <= es[0].end <= hi && Ordered(es[1..], es[0].end, hi)
  }

  /** d from lo on with every edit made. */
  function ApplyEdits(d: text, es: seq<Edit>, lo: nat): text
    requires Ordered(es, lo, |d|)
  {
    if es == [] then d[lo..] else d[lo..es[0].start] + es[0].repl + ApplyEdits(d, es[1..], es[0].end)
  }

  lemma TurnParts(runs: seq<Run>, d: text, red: text, n: nat, i: nat, j: nat, c: nat, x: nat)
    requires RunsOf(runs, red) && n < |runs| && i <= |d| && j <= runs[n].start
    requires c == PrefixLength(d[i..], red[j..runs[n].start]) && x == SuffixLength(d[i + c..], red[j + c..])
    ensures runs[n].start <= |red|
    ensures var t := TurnAt(runs, d, red, n, i, j);
            if t.Done? then t == Done(Edit(i + c, |d| - x, red[j + c..|red| - x]))
            else i + c <= t.i <= |d| && j + c <= t.j <= |red| && t == More(Edit(i + c, t.i, red[j + c..t.j]), t.i, t.j)
  {
    hide PrefixLength, SuffixLength, Placed;
  }

  /** A turn's edit starts no earlier than d was read to, and keeps and writes exactly what red holds. */
  lemma TurnRebuilds(runs: seq<Run>, d: text, red: text, n: nat, i: nat, j: nat)
    requires RunsOf(runs, red) && n < |runs| && i <= |d| && j <= runs[n].start
    ensures var t := TurnAt(runs, d, red, n, i, j);
            && i <= t.edit.start <= t.edit.end <= |d|
            && (t.More? ==> t.i == t.edit.end && j <= t.j <= |red| && d[i..t.edit.start] + t.edit.repl == red[j..t.j])
            && (t.Done? ==> d[i..t.edit.start] + t.edit.repl + d[t.edit.end..] == red[j..])
  {
    hide PrefixLength, SuffixLength, Placed, TurnAt;
    var t := TurnAt(runs, d, red, n, i, j);
    var c := PrefixLength(d[i..], red[j..runs[n].start]);
    var x := SuffixLength(d[i + c..], red[j + c..]);
    TurnParts(runs, d, red, n, i, j, c, x);
    if t.More? {
      MoreRebuilds(d, red, i, j, c, runs[n].start, t.j);
    } else {
      DoneRebuilds(d, red, i, j, c, runs[n].start, x);
    }
  }

  lemma MoreRebuilds(d: text, red: text, i: nat, j: nat, c: nat, stop: nat, end: nat)
    requires i <= |d| && j <= stop <= |red| && c == PrefixLength(d[i..], red[j..stop]) && j + c <= end <= |red|
    ensures i + c <= |d| && d[i..i + c] + red[j + c..end] == red[j..end]
  {
    hide PrefixLength;
    KeptPrefix(d, red, i, j, c, stop);
    JoinTwo(red, j, j + c, end);
  }

  lemma DoneRebuilds(d: text, red: text, i: nat, j: nat, c: nat, stop: nat, x: nat)
    requires i <= |d| && j <= stop <= |red| && c == PrefixLength(d[i..], red[j..stop])
    requires i + c <= |d| && j + c <= |red| && x == SuffixLength(d[i + c..], red[j + c..])
    ensures i + c + x <= |d| && j + c + x <= |red|
    ensures d[i..i + c] + red[j + c..|red| - x] + d[|d| - x..] == red[j..]
  {
    hide PrefixLength, SuffixLength;
    KeptSuffix(d, red, i + c, j + c);
    MoreRebuilds(d, red, i, j, c, stop, |red| - x);
    JoinTails(red, d, j, x);
  }

  lemma JoinTails(red: text, d: text, j: nat, x: nat)
    requires j + x <= |red| && x <= |d| && d[|d| - x..] == red[|red| - x..]
    ensures red[j..|red| - x] + d[|d| - x..] == red[j..]
  {
    JoinTwo(red, j, |red| - x, |red|);
  }

  lemma {:induction false} AlignRebuilds(runs: seq<Run>, d: text, red: text, n: nat, i: nat, j: nat)
    requires RunsOf(runs, red) && n < |runs| && i <= |d| && j <= runs[n].start
    ensures 0 < |Align(runs, d, red, n, i, j)| <= |runs| - n
    ensures Ordered(Align(runs, d, red, n, i, j), i, |d|)
    ensures ApplyEdits(d, Align(runs, d, red, n, i, j), i) == red[j..]
    decreases |runs| - n
  {
    hide TurnAt;
    TurnRebuilds(runs, d, red, n, i, j);
    var t := TurnAt(runs, d, red, n, i, j);
    if t.More? {
      AlignRebuilds(runs, d, red, n + 1, t.i, t.j);
      OneMore(t.edit, Align(runs, d, red, n + 1, t.i, t.j), d, i);
      JoinTwo(red, j, t.j, |red|);
    } else {
      OneMore(t.edit, [], d, i);
    }
  }

  lemma OneMore(e: Edit, es: seq<Edit>, d: text, lo: nat)
    requires lo <= e.start <= e.end <= |d| && Ordered(es, e.end, |d|)
    ensures Ordered([e] + es, lo, |d|)
    ensures ApplyEdits(d, [e] + es, lo) == d[lo..e.start] + e.repl + ApplyEdits(d, es, e.end)
  {
    assert ([e] + es)[1..] == es;
  }

  lemma KeptPrefix(d: text, red: text, i: nat, j: nat, c: nat, stop: nat)
    requires i <= |d| && j <= stop <= |red| && c == PrefixLength(d[i..], red[j..stop])
    ensures i + c <= |d| && j + c <= stop && d[i..i + c] == red[j..j + c]
  {
    assert d[i..i + c] == d[i..][..c] && red[j..j + c] == red[j..stop][..c];
  }

  lemma KeptSuffix(d: text, red: text, i: nat, j: nat)
    requires i <= |d| && j <= |red|
    ensures var x := SuffixLength(d[i..], red[j..]);
            i + x <= |d| && j + x <= |red| && d[|d| - x..] == red[|red| - x..]
  {
    hide SuffixLength;
    var x := SuffixLength(d[i..], red[j..]);
    assert d[|d| - x..] == d[i..][|d| - i - x..] && red[|red| - x..] == red[j..][|red| - j - x..];
  }

  lemma JoinTwo(s: text, a: nat, b: nat, c: nat)
    requires a <= b <= c <= |s|
    ensures s[a..b] + s[b..c] == s[a..c]
    ensures c == |s| ==> s[b..c] == s[b..] && s[a..c] == s[a..]
  {
  }

  /** For every d, red and runs, the edits are ordered and rebuild red from d exactly. */
  lemma EditsRebuild(marks: seq<Run>, d: text, red: text)
    requires RunsOf(marks + [Run(|red|, |red|)], red)
    ensures var es := Align(marks + [Run(|red|, |red|)], d, red, 0, 0, 0);
            Ordered(es, 0, |d|) && ApplyEdits(d, es, 0) == red && 0 < |es| <= |marks| + 1
  {
    var runs := marks + [Run(|red|, |red|)];
    AlignRebuilds(runs, d, red, 0, 0, 0);
    assert red[0..] == red;
  }

  // ---- Rewriting the escaped body -------------------------------------------

  predicate Nondecreasing(raw: seq<nat>) { forall i, j :: 0 <= i <= j < |raw| ==> raw[i] <= raw[j] }

  predicate OrderedSpans(spans: seq<Span>) {
    && (forall k :: 0 <= k < |spans| ==> spans[k].start <= spans[k].end)
    && (forall k, m :: 0 <= k < m < |spans| ==> spans[k].end <= spans[m].start)
  }

  function Mapped(e: Edit, raw: seq<nat>, at: nat, escape: text -> text): Span
    requires e.start < |raw| && e.end < |raw|
  {
    Span(at + raw[e.start], at + raw[e.end], escape(e.repl))
  }

  /** rewrite: one span for each edit, at the offsets raw maps its ends to. */
  method Rewrite(marks: seq<Run>, d: text, raw: seq<nat>, at: nat, red: text, spans: seq<Span>,
                 escape: text -> text)
    returns (out: seq<Span>, changed: bool)
    requires |raw| == |d| + 1 && Nondecreasing(raw)
    requires RunsOf(marks + [Run(|red|, |red|)], red)
    ensures changed <==> red != d
    ensures !changed ==> out == spans
    ensures changed ==>
              var es := Align(marks + [Run(|red|, |red|)], d, red, 0, 0, 0);
              && |out| == |spans| + |es| && out[..|spans|] == spans
              && (forall k :: 0 <= k < |es| ==> es[k].start <= es[k].end <= |d|)
              && (forall k :: 0 <= k < |es| ==> out[|spans| + k] == Mapped(es[k], raw, at, escape))
    ensures OrderedSpans(out[|spans|..])
    ensures forall sp <- out[|spans|..] :: at + raw[0] <= sp.start && sp.end <= at + raw[|d|]
  {
    hide Align, Ordered, Mapped, Nondecreasing;
    if red == d {
      return spans, false;
    }
    var es := Edits(marks, d, red);
    EditsRebuild(marks, d, red);
    forall k, m | 0 <= k < m < |es|
      ensures es[k].end <= es[m].start
    {
      OrderedPair(es, 0, |d|, k, m);
    }
    forall k | 0 <= k < |es|
      ensures es[k].start <= es[k].end <= |d|
    {
      OrderedPair(es, 0, |d|, k, k);
    }
    out := AppendMapped(es, raw, at, escape, spans);
    changed := |es| > 0;
    MappedOrdered(es, raw, at, escape, out[|spans|..]);
  }

  method AppendMapped(es: seq<Edit>, raw: seq<nat>, at: nat, escape: text -> text, spans: seq<Span>)
    returns (out: seq<Span>)
    requires forall k :: 0 <= k < |es| ==> es[k].start <= es[k].end < |raw|
    ensures |out| == |spans| + |es| && out[..|spans|] == spans
    ensures forall k :: 0 <= k < |es| ==> out[|spans| + k] == Mapped(es[k], raw, at, escape)
  {
    hide Mapped;
    out := spans;
    for n := 0 to |es|
      invariant |out| == |spans| + n && out[..|spans|] == spans
      invariant forall k :: 0 <= k < n ==> out[|spans| + k] == Mapped(es[k], raw, at, escape)
    {
      out := out + [Mapped(es[n], raw, at, escape)];
    }
  }

  lemma MappedOrdered(es: seq<Edit>, raw: seq<nat>, at: nat, escape: text -> text, spans: seq<Span>)
    requires raw != [] && Nondecreasing(raw) && |spans| == |es|
    requires forall k :: 0 <= k < |es| ==> es[k].start <= es[k].end < |raw|
    requires forall k, m :: 0 <= k < m < |es| ==> es[k].end <= es[m].start
    requires forall k :: 0 <= k < |es| ==> spans[k] == Mapped(es[k], raw, at, escape)
    ensures OrderedSpans(spans)
    ensures forall sp <- spans :: at + raw[0] <= sp.start && sp.end <= at + raw[|raw| - 1]
  {
    forall k, m | 0 <= k < m < |spans|
      ensures spans[k].end <= spans[m].start
    {
      assert raw[es[k].end] <= raw[es[m].start];
    }
  }

  lemma {:induction false} OrderedPair(es: seq<Edit>, lo: nat, hi: nat, k: nat, m: nat)
    requires Ordered(es, lo, hi) && k <= m < |es|
    ensures lo <= es[k].start <= es[k].end <= hi && lo <= es[m].start
    ensures k < m ==> es[k].end <= es[m].start
  {
    if k > 0 {
      OrderedPair(es[1..], es[0].end, hi, k - 1, m - 1);
    } else if m > 0 {
      OrderedPair(es[1..], es[0].end, hi, 0, m - 1);
      OrderedPair(es[1..], es[0].end, hi, m - 1, m - 1);
    }
  }

  // ---- A string the decoder stopped in --------------------------------------

  /** How many backslashes stand right before position k of a string opened at 0. */
  function Backslashes(rest: text, k: nat): nat
    requires k <= |rest|
  {
    if k <= 1 || rest[k - 1] != BACKSLASH then 0 else Backslashes(rest, k - 1) + 1
  }

  /** A quote that closes: not the opening one, and after an even run of backslashes. */
  predicate Closes(rest: text, k: nat) {
    1 <= k < |rest| && rest[k] == QUOTE && Backslashes(rest, k) % 2 == 0
  }

  /** openBody: the end of the string that opens rest; -1 and its body when nothing closes it. */
  method OpenBody(rest: text) returns (body: text, end: int)
    ensures rest == [] || rest[0] != QUOTE ==> body == [] && end == 0
    ensures rest != [] && rest[0] == QUOTE && end >= 0 ==>
              body == [] && end >= 2 && Closes(rest, end - 1) && forall k: nat :: k < end - 1 ==> !Closes(rest, k)
    ensures end < 0 ==>
              && end == -1 && rest != [] && rest[0] == QUOTE && (forall k: nat :: !Closes(rest, k))
              && body == if Backslashes(rest, |rest|) % 2 == 1 then rest[1..|rest| - 1] else rest[1..]
  {
    if rest == [] || rest[0] != QUOTE {
      return [], 0;
    }
    var i := 1;
    while i < |rest|
      invariant 1 <= i <= |rest|
      invariant Backslashes(rest, i) % 2 == 0
      invariant forall k: nat :: k < i ==> !Closes(rest, k)
    {
      if rest[i] == BACKSLASH {
        if i + 1 == |rest| {
          return rest[1..i], -1;
        }
        i := i + 1;
      } else if rest[i] == QUOTE {
        return [], i + 1;
      }
      i := i + 1;
    }
    return rest[1..], -1;
  }
}
