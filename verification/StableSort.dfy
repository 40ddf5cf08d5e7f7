/** Stable sorting by any strict order, and the bytewise order of texts: what the sort package does for its callers. */
module StableSort {
  // ---- Stable sorting -------------------------------------------------------

  /** less is a strict order whose incomparable elements are interchangeable. */
  ghost predicate Weak<T(!new)>(less: (T, T) -> bool) {
    && (forall a, b, c :: !less(b, a) && !less(c, b) ==> !less(c, a))
    && (forall a, b :: less(a, b) ==> !less(b, a))
  }

  predicate Ordered<T>(less: (T, T) -> bool, s: seq<T>) {
    forall i, j :: 0 <= i < j < |s| ==> !less(s[j], s[i])
  }

  /** x goes after everything it is not less than. */
  function Insert<T>(less: (T, T) -> bool, x: T, s: seq<T>): seq<T> {
    if s == [] || !less(x, s[|s| - 1]) then s + [x]
    else Insert(less, x, s[..|s| - 1]) + [s[|s| - 1]]
  }

  function Sort<T>(less: (T, T) -> bool, s: seq<T>): seq<T> {
    if s == [] then [] else Insert(less, s[|s| - 1], Sort(less, s[..|s| - 1]))
  }

  lemma {:induction false} InsertPermutes<T>(less: (T, T) -> bool, x: T, s: seq<T>)
    ensures multiset(Insert(less, x, s)) == multiset(s) + multiset{x}
    ensures |Insert(less, x, s)| == |s| + 1
  {
    if s != [] && less(x, s[|s| - 1]) {
      InsertPermutes(less, x, s[..|s| - 1]);
      assert s == s[..|s| - 1] + [s[|s| - 1]];
    }
  }

  lemma {:induction false} InsertOrders<T(!new)>(less: (T, T) -> bool, x: T, s: seq<T>)
    requires Weak(less) && Ordered(less, s)
    ensures Ordered(less, Insert(less, x, s))
  {
    if s == [] {
    } else if less(x, s[|s| - 1]) {
      var init, last := s[..|s| - 1], s[|s| - 1];
      InsertOrders(less, x, init);
      var r := Insert(less, x, init);
      InsertPermutes(less, x, init);
      forall i | 0 <= i < |r|
        ensures !less(last, r[i])
      {
        assert r[i] in multiset(r);
        if r[i] != x {
          assert r[i] in init;
        }
      }
    } else {
      forall i | 0 <= i < |s|
        ensures !less(x, s[i])
      {
        assert i < |s| - 1 ==> !less(s[|s| - 1], s[i]);
      }
    }
  }

  lemma {:induction false} SortSorts<T(!new)>(less: (T, T) -> bool, s: seq<T>)
    requires Weak(less)
    ensures Ordered(less, Sort(less, s)) && multiset(Sort(less, s)) == multiset(s)
  {
    hide Weak, Insert;
    if s != [] {
      var init, last := s[..|s| - 1], s[|s| - 1];
      SortSorts(less, init);
      InsertOrders(less, last, Sort(less, init));
      InsertPermutes(less, last, Sort(less, init));
      assert s == init + [last];
    }
  }

  /** Sorting changes nothing exactly when the sequence is already in order. */
  lemma {:induction false} SortFixes<T(!new)>(less: (T, T) -> bool, s: seq<T>)
    requires Weak(less)
    ensures Sort(less, s) == s <==> Ordered(less, s)
  {
    SortSorts(less, s);
    if Ordered(less, s) && s != [] {
      SortFixes(less, s[..|s| - 1]);
      assert Insert(less, s[|s| - 1], s[..|s| - 1]) == s[..|s| - 1] + [s[|s| - 1]];
    }
  }

  // ---- The order of names and rows ------------------------------------------

  /** Bytewise order of texts. */
  predicate Before(a: string, b: string) {
    if b == [] then false
    else if a == [] then true
    else if a[0] != b[0] then a[0] < b[0]
    else Before(a[1..], b[1..])
  }

  lemma {:induction false} BeforeTotal(a: string, b: string)
    ensures a != b <==> Before(a, b) || Before(b, a)
    ensures !(Before(a, b) && Before(b, a))
  {
    if a != [] && b != [] && a[0] == b[0] {
      BeforeTotal(a[1..], b[1..]);
      assert a == [a[0]] + a[1..] && b == [b[0]] + b[1..];
    }
  }

  lemma {:induction false} BeforeTransitive(a: string, b: string, c: string)
    requires Before(a, b) && Before(b, c)
    ensures Before(a, c)
  {
    if a != [] && a[0] == b[0] && b[0] == c[0] {
      BeforeTransitive(a[1..], b[1..], c[1..]);
    }
  }

  lemma NamesWeak()
    ensures Weak(Before)
  {
    forall a, b, c | !Before(b, a) && !Before(c, b)
      ensures !Before(c, a)
    {
      BeforeTotal(a, b);
      BeforeTotal(b, c);
      BeforeTotal(a, c);
      if a != b && b != c {
        BeforeTransitive(a, b, c);
      }
    }
    forall a, b | Before(a, b)
      ensures !Before(b, a)
    {
      BeforeTotal(a, b);
    }
  }

  // ---- Sequences without repeats --------------------------------------------

  predicate NoRepeats<T(==)>(names: seq<T>) { forall i, j :: 0 <= i < j < |names| ==> names[i] != names[j] }

  lemma SortKeepsDistinct<T(!new)>(less: (T, T) -> bool, names: seq<T>)
    requires NoRepeats(names) && Weak(less)
    ensures NoRepeats(Sort(less, names)) && forall n :: n in Sort(less, names) <==> n in names
  {
    SortSorts(less, names);
    var sorted := Sort(less, names);
    forall n ensures n in sorted <==> n in names {
      assert n in sorted <==> n in multiset(sorted);
      assert n in names <==> n in multiset(names);
    }
    DistinctByCount(names);
    DistinctByCount(sorted);
  }

  lemma {:induction false} DistinctByCount<T(!new)>(names: seq<T>)
    ensures NoRepeats(names) <==> forall n :: multiset(names)[n] <= 1
  {
    if names != [] {
      var init, last := names[..|names| - 1], names[|names| - 1];
      DistinctByCount(init);
      assert names == init + [last];
      assert multiset(names) == multiset(init) + multiset{last};
      assert last in init <==> multiset(init)[last] > 0;
      if NoRepeats(names) {
        assert NoRepeats(init);
        assert last !in init;
      }
      if forall n :: multiset(names)[n] <= 1 {
        forall n ensures multiset(init)[n] <= 1 {
          assert multiset(names)[n] <= 1;
        }
        assert multiset(names)[last] <= 1;
      }
    }
  }
}
