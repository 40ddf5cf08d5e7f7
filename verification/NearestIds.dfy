/** The ids closest to a misspelt one (internal/apiref/candidates.go). */
module NearestIds {
  import opened StableSort
  import opened Levenshtein

  /** An id and its distance to the target, both in lower case. */
  datatype Scored = Scored(id: string, dist: nat)

  /** The smaller distance comes first; ids at one distance come in the order of their bytes. */
  predicate Nearer(a: Scored, b: Scored) {
    if a.dist != b.dist then a.dist < b.dist else Before(a.id, b.id)
  }

  function IdSet(ids: seq<string>): set<string> { set id <- ids }

  function Score(lower: string -> string, want: string, id: string): Scored {
    Scored(id, Distance(lower(id), want))
  }

  lemma NearerWeak()
    ensures Weak(Nearer)
  {
    NamesWeak();
    hide Before;
    assert forall a, b, c :: !Nearer(b, a) && !Nearer(c, b) ==> !Nearer(c, a);
  }

  /** a comes before b in the order of distance to the target. */
  predicate Closer(lower: string -> string, want: string, a: string, b: string) {
    Nearer(Score(lower, want, a), Score(lower, want, b))
  }

  lemma CloserTotal(lower: string -> string, want: string, a: string, b: string)
    ensures a != b ==> Closer(lower, want, a, b) || Closer(lower, want, b, a)
    ensures !(Closer(lower, want, a, b) && Closer(lower, want, b, a))
  {
    BeforeTotal(a, b);
  }

  /** out holds the n ids of the set closest to the target, closest first. */
  predicate ClosestOf(lower: string -> string, want: string, ids: set<string>, n: nat, out: seq<string>) {
    && |out| == (if n <= |ids| then n else |ids|)
    && (forall i, j :: 0 <= i < j < |out| ==> Closer(lower, want, out[i], out[j]))
    && (forall o <- out :: o in ids)
    && (forall x <- ids, o <- out | x !in out :: Closer(lower, want, o, x))
  }

  /** The answer depends on the set of ids alone: not on their order, nor on repeats. */
  lemma {:induction false} OneAnswer(lower: string -> string, want: string, ids: set<string>, n: nat,
                                     a: seq<string>, b: seq<string>)
    requires ClosestOf(lower, want, ids, n, a) && ClosestOf(lower, want, ids, n, b)
    ensures a == b
    decreases n
  {
    hide Closer;
    if a != [] {
      SameFirst(lower, want, ids, n, a, b);
      var rest := ids - {a[0]};
      WithoutFirst(lower, want, ids, n, a);
      WithoutFirst(lower, want, ids, n, b);
      OneAnswer(lower, want, rest, n - 1, a[1..], b[1..]);
      assert a == [a[0]] + a[1..] && b == [b[0]] + b[1..];
    }
  }

  lemma SameFirst(lower: string -> string, want: string, ids: set<string>, n: nat, a: seq<string>, b: seq<string>)
    requires ClosestOf(lower, want, ids, n, a) && ClosestOf(lower, want, ids, n, b) && a != []
    ensures b != [] && a[0] == b[0]
  {
    hide Closer;
    assert a[0] in a && b[0] in b;
    if a[0] != b[0] {
      CloserTotal(lower, want, a[0], b[0]);
      FirstIsCloser(lower, want, ids, n, a, b[0]);
      FirstIsCloser(lower, want, ids, n, b, a[0]);
    }
  }

  lemma FirstIsCloser(lower: string -> string, want: string, ids: set<string>, n: nat, a: seq<string>, x: string)
    requires ClosestOf(lower, want, ids, n, a) && a != [] && x in ids && x != a[0]
    ensures Closer(lower, want, a[0], x)
  {
    hide Closer;
    assert a[0] in a;
    if x in a {
      var k :| 0 <= k < |a| && a[k] == x;
    }
  }

  lemma WithoutFirst(lower: string -> string, want: string, ids: set<string>, n: nat, a: seq<string>)
    requires ClosestOf(lower, want, ids, n, a) && a != []
    ensures n > 0 && ClosestOf(lower, want, ids - {a[0]}, n - 1, a[1..])
  {
    hide Closer;
    var first, rest := a[0], a[1..];
    assert a == [first] + rest;
    assert forall x :: x in a <==> x == first || x in rest;
    CloserTotal(lower, want, first, first);
    assert first !in rest by {
      assert forall k :: 0 <= k < |rest| ==> rest[k] == a[k + 1];
    }
    assert |ids - {first}| == |ids| - 1;
    forall i, j | 0 <= i < j < |rest|
      ensures Closer(lower, want, rest[i], rest[j])
    {
      assert Closer(lower, want, a[i + 1], a[j + 1]);
    }
  }

  /** The distinct ids, each with its distance. */
  method Scores(lower: string -> string, want: string, ids: seq<string>) returns (all: seq<Scored>)
    ensures NoRepeats(all) && |all| == |IdSet(ids)|
    ensures forall x :: x in all <==> x.id in ids && x == Score(lower, want, x.id)
  {
    hide Distance;
    var seen: set<string> := {};
    all := [];
    for i := 0 to |ids|
      invariant seen == IdSet(ids[..i])
      invariant NoRepeats(all) && |all| == |seen|
      invariant forall x :: x in all <==> x.id in seen && x == Score(lower, want, x.id)
    {
      var id := ids[i];
      assert ids[..i + 1] == ids[..i] + [id];
      if id !in seen {
        seen := seen + {id};
        var d := EditDistance(lower(id), want);
        all := all + [Scored(id, d)];
      }
    }
    assert ids[..|ids|] == ids;
  }

  /** Nearest: the n closest of the distinct ids; a negative n counts as 0. */
  method Nearest(lower: string -> string, ids: seq<string>, target: string, n: int) returns (out: seq<string>)
    ensures ClosestOf(lower, lower(target), IdSet(ids), if n < 0 then 0 else n, out)
  {
    hide Distance, Closer, Nearer, Weak, Ordered, NoRepeats, Sort;
    var want := lower(target);
    var all := Scores(lower, want, ids);
    NearerWeak();
    SortSorts(Nearer, all);
    SortKeepsDistinct(Nearer, all);
    var sorted := Sort(Nearer, all);
    assert |sorted| == |multiset(sorted)| == |multiset(all)| == |all|;
    var bound := if n < 0 then 0 else n;
    var keep := if bound < |sorted| then bound else |sorted|;
    out := [];
    for k := 0 to keep
      invariant |out| == k && forall j :: 0 <= j < k ==> out[j] == sorted[j].id
    {
      out := out + [sorted[k].id];
    }
    KeptAreClosest(lower, want, IdSet(ids), bound, sorted, out);
  }

  lemma KeptAreClosest(lower: string -> string, want: string, ids: set<string>, n: nat, sorted: seq<Scored>,
                       out: seq<string>)
    requires Ordered(Nearer, sorted) && NoRepeats(sorted) && |sorted| == |ids|
    requires forall x :: x in sorted <==> x.id in ids && x == Score(lower, want, x.id)
    requires |out| == (if n < |sorted| then n else |sorted|)
    requires forall j :: 0 <= j < |out| ==> out[j] == sorted[j].id
    ensures ClosestOf(lower, want, ids, n, out)
  {
    hide Distance, Nearer;
    forall i, j | 0 <= i < j < |sorted|
      ensures Closer(lower, want, sorted[i].id, sorted[j].id)
    {
      assert sorted[i] in sorted && sorted[j] in sorted && sorted[i] != sorted[j];
      CloserTotal(lower, want, sorted[i].id, sorted[j].id);
    }
    forall o <- out
      ensures o in ids
    {
      var k :| 0 <= k < |out| && out[k] == o;
      assert sorted[k] in sorted;
    }
    forall x <- ids, o <- out | x !in out
      ensures Closer(lower, want, o, x)
    {
      assert Score(lower, want, x) in sorted;
      assert forall m :: 0 <= m < |out| ==> sorted[m].id in out;
      var k :| 0 <= k < |sorted| && sorted[k] == Score(lower, want, x);
      var j :| 0 <= j < |out| && out[j] == o;
    }
  }
}
