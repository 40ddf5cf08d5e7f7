/** The edit distance behind near-miss hints (internal/apiref/candidates.go), over runes. */
module Levenshtein {
  import opened Wrappers

  const MAX_EDIT_DISTANCE := 2

  // ---- Edit scripts: what the distance is about -----------------------------

  /** One step of a script; Substitute and Insert name the rune they write. */
  datatype Op = Keep | Substitute(c: char) | Insert(c: char) | Delete

  function Front<T>(s: seq<T>): seq<T>
    requires s != []
  {
    s[..|s| - 1]
  }

  function Last<T>(s: seq<T>): T
    requires s != []
  {
    s[|s| - 1]
  }

  /** Runs a script over a: it must read every rune of a exactly once. */
  function Apply(a: seq<char>, ops: seq<Op>): Option<seq<char>>
    decreases |ops|
  {
    if ops == [] then (if a == [] then Some([]) else None)
    else if Last(ops).Insert? then Written(Apply(a, Front(ops)), [Last(ops).c])
    else if a == [] then None
    else
      var rest := Apply(Front(a), Front(ops));
      match Last(ops)
      case Keep => Written(rest, [Last(a)])
      case Substitute(c) => Written(rest, [c])
      case Delete => rest
  }

  function Written(r: Option<seq<char>>, w: seq<char>): Option<seq<char>> {
    if r.Some? then Some(r.value + w) else None
  }

  function Cost(ops: seq<Op>): nat {
    if ops == [] then 0 else Cost(Front(ops)) + (if Last(ops).Keep? then 0 else 1)
  }

  // ---- The recurrence -------------------------------------------------------

  function Min(a: nat, b: nat): nat { if a <= b then a else b }

  /** The table's entry for the first i runes of a and the first j of b. */
  function Entry(a: seq<char>, b: seq<char>, i: nat, j: nat): nat
    requires i <= |a| && j <= |b|
  {
    if i == 0 then j
    else if j == 0 then i
    else
      Min(Min(Entry(a, b, i - 1, j) + 1, Entry(a, b, i, j - 1) + 1),
          Entry(a, b, i - 1, j - 1) + (if a[i - 1] == b[j - 1] then 0 else 1))
  }

  function Distance(a: seq<char>, b: seq<char>): nat { Entry(a, b, |a|, |b|) }

  lemma EntryEdge(a: seq<char>, b: seq<char>, i: nat, j: nat)
    requires i <= |a| && j <= |b|
    ensures Entry(a, b, 0, j) == j && Entry(a, b, i, 0) == i
  {
  }

  lemma EntryStep(a: seq<char>, b: seq<char>, i: nat, j: nat)
    requires 0 < i <= |a| && 0 < j <= |b|
    ensures Entry(a, b, i, j) ==
            Min(Min(Entry(a, b, i - 1, j) + 1, Entry(a, b, i, j - 1) + 1),
                Entry(a, b, i - 1, j - 1) + (if a[i - 1] == b[j - 1] then 0 else 1))
  {
  }

  /** An entry depends on the prefixes it names alone. */
  lemma {:induction false} EntryPrefix(a: seq<char>, b: seq<char>, a': seq<char>, b': seq<char>, i: nat, j: nat)
    requires a' <= a && b' <= b && i <= |a'| && j <= |b'|
    ensures Entry(a, b, i, j) == Entry(a', b', i, j)
    decreases i + j
  {
    hide Entry;
    if i == 0 || j == 0 {
      EntryEdge(a, b, i, j);
      EntryEdge(a', b', i, j);
    } else {
      EntryStep(a, b, i, j);
      EntryStep(a', b', i, j);
      EntryPrefix(a, b, a', b', i - 1, j);
      EntryPrefix(a, b, a', b', i, j - 1);
      EntryPrefix(a, b, a', b', i - 1, j - 1);
    }
  }

  lemma DistanceEdge(a: seq<char>)
    ensures Distance(a, []) == |a| && Distance([], a) == |a|
  {
    hide Entry;
    EntryEdge(a, [], |a|, 0);
    EntryEdge([], a, 0, |a|);
  }

  lemma DistanceStep(a: seq<char>, b: seq<char>)
    requires a != [] && b != []
    ensures Distance(a, b) ==
            Min(Min(Distance(Front(a), b) + 1, Distance(a, Front(b)) + 1),
                Distance(Front(a), Front(b)) + (if Last(a) == Last(b) then 0 else 1))
  {
    hide Entry;
    var i, j := |a|, |b|;
    EntryStep(a, b, i, j);
    EntryPrefix(a, b, Front(a), b, i - 1, j);
    EntryPrefix(a, b, a, Front(b), i, j - 1);
    EntryPrefix(a, b, Front(a), Front(b), i - 1, j - 1);
  }

  lemma DistanceCases(a: seq<char>, b: seq<char>)
    ensures a == [] ==> Distance(a, b) == |b|
    ensures b == [] ==> Distance(a, b) == |a|
    ensures a != [] && b != [] ==>
              Distance(a, b) ==
              Min(Min(Distance(Front(a), b) + 1, Distance(a, Front(b)) + 1),
                  Distance(Front(a), Front(b)) + (if Last(a) == Last(b) then 0 else 1))
  {
    hide Distance, Entry;
    if a == [] {
      DistanceEdge(b);
    } else if b == [] {
      DistanceEdge(a);
    } else {
      DistanceStep(a, b);
    }
  }

  /** No script from a to b is cheaper than the distance. */
  lemma {:induction false} ScriptsCostAtLeast(a: seq<char>, ops: seq<Op>, b: seq<char>)
    requires Apply(a, ops) == Some(b)
    ensures Cost(ops) >= Distance(a, b)
    decreases |ops|
  {
    hide Distance;
    DistanceCases(a, b);
    if ops != [] {
      match Last(ops)
      case Insert(c) =>
        var r := Apply(a, Front(ops)).value;
        assert Front(b) == r;
        ScriptsCostAtLeast(a, Front(ops), r);
        DistanceCases(a, r);
      case Keep =>
        var r := Apply(Front(a), Front(ops)).value;
        assert Front(b) == r;
        ScriptsCostAtLeast(Front(a), Front(ops), r);
      case Substitute(c) =>
        var r := Apply(Front(a), Front(ops)).value;
        assert Front(b) == r;
        ScriptsCostAtLeast(Front(a), Front(ops), r);
      case Delete =>
        ScriptsCostAtLeast(Front(a), Front(ops), b);
        DistanceCases(Front(a), b);
    }
  }

  /** Some script from a to b costs exactly the distance. */
  lemma {:induction false} CheapestScript(a: seq<char>, b: seq<char>) returns (ops: seq<Op>)
    ensures Apply(a, ops) == Some(b) && Cost(ops) == Distance(a, b)
    decreases |a| + |b|
  {
    hide Distance;
    DistanceCases(a, b);
    if a == [] && b == [] {
      ops := [];
      assert Apply(a, ops) == Some(b);
    } else if a == [] || (b != [] && Distance(a, b) == Distance(a, Front(b)) + 1) {
      var rest := CheapestScript(a, Front(b));
      DistanceCases(a, Front(b));
      ops := rest + [Insert(Last(b))];
      assert Front(ops) == rest && b == Front(b) + [Last(b)];
    } else if b == [] || Distance(a, b) == Distance(Front(a), b) + 1 {
      var rest := CheapestScript(Front(a), b);
      DistanceCases(Front(a), b);
      ops := rest + [Delete];
      assert Front(ops) == rest;
    } else {
      var rest := CheapestScript(Front(a), Front(b));
      ops := rest + [if Last(a) == Last(b) then Keep else Substitute(Last(b))];
      assert Front(ops) == rest && b == Front(b) + [Last(b)];
    }
  }

  // ---- A metric -------------------------------------------------------------

  lemma {:induction false} Symmetric(a: seq<char>, b: seq<char>)
    ensures Distance(a, b) == Distance(b, a)
    decreases |a| + |b|
  {
    hide Distance;
    DistanceCases(a, b);
    DistanceCases(b, a);
    if a != [] && b != [] {
      Symmetric(Front(a), b);
      Symmetric(a, Front(b));
      Symmetric(Front(a), Front(b));
    }
  }

  /** The lengths differ by at most the distance. */
  lemma {:induction false} LengthGap(a: seq<char>, b: seq<char>)
    ensures |a| - |b| <= Distance(a, b) && |b| - |a| <= Distance(a, b)
    decreases |a| + |b|
  {
    hide Distance;
    DistanceCases(a, b);
    if a != [] && b != [] {
      LengthGap(Front(a), b);
      LengthGap(a, Front(b));
      LengthGap(Front(a), Front(b));
    }
  }

  lemma {:induction false} ZeroExactlyWhenEqual(a: seq<char>, b: seq<char>)
    ensures Distance(a, b) == 0 <==> a == b
    decreases |a| + |b|
  {
    hide Distance;
    DistanceCases(a, b);
    if a != [] && b != [] {
      ZeroExactlyWhenEqual(Front(a), Front(b));
      assert a == Front(a) + [Last(a)] && b == Front(b) + [Last(b)];
    }
  }

  /** A script from a to b and one from b to c make one from a to c that costs no more than both. */
  lemma {:induction false} Compose(a: seq<char>, p: seq<Op>, b: seq<char>, q: seq<Op>, c: seq<char>)
    returns (r: seq<Op>)
    requires Apply(a, p) == Some(b) && Apply(b, q) == Some(c)
    ensures Apply(a, r) == Some(c) && Cost(r) <= Cost(p) + Cost(q)
    decreases |p| + |q|
  {
    if q != [] && Last(q).Insert? {
      var rest := Compose(a, p, b, Front(q), Front(c));
      r := rest + [Last(q)];
      assert Front(r) == rest;
    } else if p != [] && Last(p).Delete? {
      var rest := Compose(Front(a), Front(p), b, q, c);
      r := rest + [Delete];
      assert Front(r) == rest;
    } else if p == [] || q == [] {
      r := [];
    } else {
      r := ComposeLast(a, p, b, q, c);
    }
  }

  lemma {:induction false} ComposeLast(a: seq<char>, p: seq<Op>, b: seq<char>, q: seq<Op>, c: seq<char>)
    returns (r: seq<Op>)
    requires Apply(a, p) == Some(b) && Apply(b, q) == Some(c)
    requires p != [] && q != [] && !Last(p).Delete? && !Last(q).Insert?
    ensures Apply(a, r) == Some(c) && Cost(r) <= Cost(p) + Cost(q)
    decreases |p| + |q|, 0
  {
    var a' := if Last(p).Insert? then a else Front(a);
    var c' := if Last(q).Delete? then c else Front(c);
    var b' := Apply(a', Front(p)).value;
    assert b' == Front(b);
    var rest := Compose(a', Front(p), b', Front(q), c');
    if Last(p).Insert? && Last(q).Delete? {
      r := rest;
    } else {
      var op := if Last(q).Keep? then Last(p)
                else if Last(q).Substitute? && Last(p).Insert? then Insert(Last(q).c)
                else Last(q);
      r := rest + [op];
      assert Front(r) == rest;
    }
  }

  lemma Triangle(a: seq<char>, b: seq<char>, c: seq<char>)
    ensures Distance(a, c) <= Distance(a, b) + Distance(b, c)
  {
    var p := CheapestScript(a, b);
    var q := CheapestScript(b, c);
    var r := Compose(a, p, b, q, c);
    ScriptsCostAtLeast(a, r, c);
  }

  // ---- The two-row computation ----------------------------------------------

  method EditDistance(ra: seq<char>, rb: seq<char>) returns (d: int)
    ensures d == Distance(ra, rb)
  {
    hide Entry;
    var prev, cur := new int[|rb| + 1], new int[|rb| + 1];
    for j := 0 to |rb| + 1
      invariant forall k :: 0 <= k < j ==> prev[k] == k
    {
      prev[j] := j;
    }
    forall k | 0 <= k <= |rb|
      ensures Entry(ra, rb, 0, k) == k
    {
      EntryEdge(ra, rb, 0, k);
    }
    var i := 1;
    while i <= |ra|
      invariant 1 <= i <= |ra| + 1
      invariant prev != cur && prev.Length == cur.Length == |rb| + 1
      invariant fresh(prev) && fresh(cur)
      invariant forall k :: 0 <= k <= |rb| ==> prev[k] == Entry(ra, rb, i - 1, k)
    {
      cur[0] := i;
      EntryEdge(ra, rb, i, 0);
      var j := 1;
      while j <= |rb|
        invariant 1 <= j <= |rb| + 1
        invariant forall k :: 0 <= k <= |rb| ==> prev[k] == Entry(ra, rb, i - 1, k)
        invariant forall k :: 0 <= k < j ==> cur[k] == Entry(ra, rb, i, k)
      {
        EntryStep(ra, rb, i, j);
        var cost := if ra[i - 1] == rb[j - 1] then 0 else 1;
        cur[j] := Min(Min(prev[j] + 1, cur[j - 1] + 1), prev[j - 1] + cost);
        j := j + 1;
      }
      prev, cur := cur, prev;
      i := i + 1;
    }
    d := prev[|rb|];
  }

  /** The reject on rune counts never changes the answer. */
  method WithinEditDistance(a: seq<char>, b: seq<char>) returns (within: bool)
    ensures within <==> exists ops :: Apply(a, ops) == Some(b) && Cost(ops) <= MAX_EDIT_DISTANCE
  {
    var ops := CheapestScript(a, b);
    forall ops | Apply(a, ops) == Some(b)
      ensures Cost(ops) >= Distance(a, b)
    {
      ScriptsCostAtLeast(a, ops, b);
    }
    if |a| - |b| > MAX_EDIT_DISTANCE || |b| - |a| > MAX_EDIT_DISTANCE {
      LengthGap(a, b);
      return false;
    }
    var d := EditDistance(a, b);
    return d <= MAX_EDIT_DISTANCE;
  }
}
