/**
  The Kubernetes document cache (internal/auth/kubernetes_reference.go): at most sixteen entries and
  sixteen mebibytes, the oldest evicted first, keyed by target identity, document key and hash.
 */
module KubeCache {
  import opened Wrappers

  const MAX_ENTRIES: nat := 16
  const MAX_BYTES: nat := 16 * 1024 * 1024
  const MAX_ENTRY: nat := 8 * 1024 * 1024

  /** A distilled document: the limitations stated for each operation it holds, and its size. */
  datatype Document = Document(operations: map<string, seq<string>>, weight: nat)

  datatype Entry = Entry(doc: Document, version: string, observedAt: string, sha: string, hash: string,
                         key: string, size: nat)

  function Key(identity: string, key: string, hash: string): string {
    identity + "\0" + key + "\0" + hash
  }

  // ---- Keys name one target, document and hash ------------------------------

  predicate NulFree(s: string) { forall c <- s :: c != '\0' }

  lemma LastOf(a: string, x: string)
    ensures var s := a + "\0" + x;
            && s[|s| - 1] == (if x == [] then '\0' else x[|x| - 1])
            && s[..|s| - 1] == (if x == [] then a else a + "\0" + x[..|x| - 1])
  {
  }

  /** A text splits in one way into a front, a NUL and a NUL-free rest. */
  lemma {:induction false} SplitOnce(a: string, x: string, b: string, y: string)
    requires NulFree(x) && NulFree(y)
    requires a + "\0" + x == b + "\0" + y
    ensures a == b && x == y
    decreases |x|
  {
    assert x != [] ==> x[|x| - 1] in x;
    assert y != [] ==> y[|y| - 1] in y;
    LastOf(a, x);
    LastOf(b, y);
    if x != [] && y != [] {
      var n := |x| - 1;
      var m := |y| - 1;
      assert x[n] in x && y[m] in y;
      assert x == x[..n] + [x[n]] && y == y[..m] + [y[m]];
      assert (forall c <- x[..n] :: c in x) && (forall c <- y[..m] :: c in y);
      SplitOnce(a, x[..n], b, y[..m]);
    }
  }

  /** With NUL-free document keys and hashes, whatever the identities hold, two cache keys agree only in all parts. */
  lemma KeyInjective(id1: string, key1: string, hash1: string, id2: string, key2: string, hash2: string)
    requires NulFree(key1) && NulFree(hash1) && NulFree(key2) && NulFree(hash2)
    requires Key(id1, key1, hash1) == Key(id2, key2, hash2)
    ensures id1 == id2 && key1 == key2 && hash1 == hash2
  {
    SplitOnce(id1 + "\0" + key1, hash1, id2 + "\0" + key2, hash2);
    SplitOnce(id1, key1, id2, key2);
  }

  /** Where a NUL stands in s. */
  lemma NulAt(s: string) returns (k: nat)
    requires !NulFree(s)
    ensures k < |s| && s == s[..k] + "\0" + s[k + 1..]
  {
    var c :| c in s && c == '\0';
    k :| k < |s| && s[k] == c;
  }

  /** The margin: with a NUL in the document key or the hash, another identity has the same cache key. */
  lemma NulCollides(id: string, key: string, hash: string) returns (id2: string, key2: string, hash2: string)
    requires !NulFree(key) || !NulFree(hash)
    ensures id2 != id && Key(id2, key2, hash2) == Key(id, key, hash)
  {
    if !NulFree(key) {
      var k := NulAt(key);
      id2, key2, hash2 := id + "\0" + key[..k], key[k + 1..], hash;
      Regrouped(id, key[..k], key[k + 1..], hash);
    } else {
      var k := NulAt(hash);
      id2, key2, hash2 := id + "\0" + key, hash[..k], hash[k + 1..];
      Regrouped(id, key, hash[..k], hash[k + 1..]);
    }
  }

  lemma Regrouped(a: string, b: string, c: string, d: string)
    ensures a + "\0" + (b + "\0" + c) + "\0" + d == (a + "\0" + b) + "\0" + c + "\0" + d
    ensures a + "\0" + b + "\0" + (c + "\0" + d) == (a + "\0" + b) + "\0" + c + "\0" + d
  {
  }

  // ---- What a put keeps -----------------------------------------------------

  function Total(es: seq<Entry>): nat {
    if es == [] then 0 else es[0].size + Total(es[1..])
  }

  predicate Fits(es: seq<Entry>) { |es| <= MAX_ENTRIES && Total(es) <= MAX_BYTES }

  predicate IsSuffix(r: seq<Entry>, es: seq<Entry>) { |r| <= |es| && r == es[|es| - |r|..] }

  function Without(es: seq<Entry>, key: string): seq<Entry> {
    if es == [] then []
    else if es[0].key == key then Without(es[1..], key)
    else [es[0]] + Without(es[1..], key)
  }

  /** Drop the oldest until the rest fits. */
  function Newest(es: seq<Entry>): seq<Entry> {
    if Fits(es) then es else Newest(es[1..])
  }

  function After(es: seq<Entry>, e: Entry): seq<Entry> {
    if e.size > MAX_ENTRY then es else Newest(Without(es, e.key) + [e])
  }

  predicate Distinct(es: seq<Entry>) {
    forall i, j :: 0 <= i < j < |es| ==> es[i].key != es[j].key
  }

  /** What is kept is the longest suffix that meets both bounds. */
  lemma {:induction false} NewestIsLongest(es: seq<Entry>, other: seq<Entry>)
    ensures var r := Newest(es); Fits(r) && IsSuffix(r, es)
    ensures IsSuffix(other, es) && Fits(other) ==> |other| <= |Newest(es)|
  {
    if !Fits(es) {
      if IsSuffix(other, es) && Fits(other) {
        assert other != es;
        assert IsSuffix(other, es[1..]);
      }
      NewestIsLongest(es[1..], other);
      assert Newest(es) == Newest(es[1..]);
      assert es[1..][|es| - 1 - |Newest(es)|..] == es[|es| - |Newest(es)|..];
    }
  }

  lemma {:induction false} WithoutHas(es: seq<Entry>, key: string)
    ensures forall e :: e in Without(es, key) <==> e in es && e.key != key
  {
    if es != [] {
      WithoutHas(es[1..], key);
      assert es == [es[0]] + es[1..];
    }
  }

  lemma {:induction false} WithoutDistinct(es: seq<Entry>, key: string)
    requires Distinct(es)
    ensures Distinct(Without(es, key))
  {
    if es != [] {
      WithoutDistinct(es[1..], key);
      WithoutHas(es[1..], key);
    }
  }

  /** The entry just put is always kept, last. */
  lemma PutIsKept(es: seq<Entry>, e: Entry)
    requires e.size <= MAX_ENTRY
    ensures var r := After(es, e); r != [] && r[|r| - 1] == e
  {
    var all := Without(es, e.key) + [e];
    assert Total([e]) == e.size + Total([]);
    assert all[|all| - 1..] == [e];
    NewestIsLongest(all, [e]);
  }

  /** A put leaves no second entry of its key, and every other kept entry was there before. */
  lemma PutKeepsDistinct(es: seq<Entry>, e: Entry)
    requires Distinct(es)
    ensures Distinct(After(es, e))
    ensures forall x <- After(es, e) :: x == e || (x in es && (e.size <= MAX_ENTRY ==> x.key != e.key))
  {
    if e.size <= MAX_ENTRY {
      var all := Without(es, e.key) + [e];
      WithoutDistinct(es, e.key);
      WithoutHas(es, e.key);
      NewestIsLongest(all, []);
      forall i, j | 0 <= i < j < |all|
        ensures all[i].key != all[j].key
      {
        assert i < |all| - 1 && all[i] in Without(es, e.key);
      }
    }
  }

  // ---- Any sequence of puts -------------------------------------------------

  function Replay(puts: seq<Entry>): seq<Entry> {
    if puts == [] then [] else After(Replay(puts[..|puts| - 1]), puts[|puts| - 1])
  }

  /** The last put under key that was not over the entry limit. */
  function LastPut(puts: seq<Entry>, key: string): Option<Entry> {
    if puts == [] then None
    else
      var e := puts[|puts| - 1];
      if e.key == key && e.size <= MAX_ENTRY then Some(e) else LastPut(puts[..|puts| - 1], key)
  }

  lemma {:induction false} LastPutIn(puts: seq<Entry>, key: string)
    ensures var e := LastPut(puts, key); e.Some? ==> e.value in puts && e.value.key == key
  {
    if puts != [] {
      LastPutIn(puts[..|puts| - 1], key);
    }
  }

  /** After any puts: distinct keys, both bounds, and every entry is the last accepted put of its key. */
  lemma {:induction false} EveryPut(puts: seq<Entry>)
    ensures var es := Replay(puts);
            Distinct(es) && Fits(es) && forall x <- es :: LastPut(puts, x.key) == Some(x)
  {
    if puts != [] {
      var before, e := puts[..|puts| - 1], puts[|puts| - 1];
      EveryPut(before);
      PutKeepsDistinct(Replay(before), e);
      if e.size <= MAX_ENTRY {
        NewestIsLongest(Without(Replay(before), e.key) + [e], []);
      }
    }
  }

  // ---- The cache ------------------------------------------------------------

  class Cache {
    var entries: seq<Entry>
    var bytes: nat
    ghost var puts: seq<Entry>

    ghost predicate Valid()
      reads this
    {
      entries == Replay(puts) && bytes == Total(entries) && Distinct(entries) && Fits(entries)
    }

    constructor ()
      ensures Valid() && puts == []
    {
      entries, bytes, puts := [], 0, [];
    }

    /** Get: what it returns is the last accepted put of exactly that key. */
    method Get(identity: string, key: string, hash: string) returns (e: Option<Entry>)
      requires Valid()
      ensures e.Some? ==> e.value in entries && e.value.key == Key(identity, key, hash)
      ensures e.Some? ==> LastPut(puts, Key(identity, key, hash)) == e
      ensures e.None? ==> forall x <- entries :: x.key != Key(identity, key, hash)
    {
      var k := Key(identity, key, hash);
      for i := 0 to |entries|
        invariant forall x <- entries[..i] :: x.key != k
      {
        if entries[i].key == k {
          EveryPut(puts);
          assert entries[i] in Replay(puts);
          return Some(entries[i]);
        }
      }
      return None;
    }

    /** Put: given is stamped with its key and size first. */
    method Put(identity: string, key: string, given: Entry)
      requires Valid()
      modifies this
      ensures Valid() && puts == old(puts) + [Stamped(identity, key, given)]
      ensures entries == After(old(entries), Stamped(identity, key, given))
    {
      var k := Key(identity, key, given.hash);
      var e := given.(key := k, size := |k| + |given.version| + |given.observedAt| + |given.sha| + given.doc.weight);
      assert e == Stamped(identity, key, given);
      puts := puts + [e];
      assert puts[..|puts| - 1] == old(puts);
      EveryPut(puts);
      hide Replay, Distinct, Without;
      if e.size > MAX_ENTRY {
        return;
      }
      var kept := DeleteKey(entries, k);
      entries := kept + [e];
      bytes := SumSizes(entries);
      ghost var all := entries;
      while |entries| > MAX_ENTRIES || bytes > MAX_BYTES
        invariant bytes == Total(entries) && Newest(entries) == Newest(all) && puts == old(puts) + [e]
        decreases |entries|
      {
        bytes := bytes - entries[0].size;
        entries := entries[1..];
      }
    }
  }

  function Stamped(identity: string, key: string, given: Entry): Entry {
    var k := Key(identity, key, given.hash);
    given.(key := k, size := |k| + |given.version| + |given.observedAt| + |given.sha| + given.doc.weight)
  }

  method SumSizes(es: seq<Entry>) returns (bytes: nat)
    ensures bytes == Total(es)
  {
    bytes := 0;
    for i := 0 to |es|
      invariant bytes + Total(es[i..]) == Total(es)
    {
      assert es[i..][1..] == es[i + 1..];
      bytes := bytes + es[i].size;
    }
  }

  /** slices.DeleteFunc by key. */
  method DeleteKey(es: seq<Entry>, key: string) returns (r: seq<Entry>)
    ensures r == Without(es, key)
  {
    r := [];
    for i := 0 to |es|
      invariant r + Without(es[i..], key) == Without(es, key)
    {
      assert es[i..][1..] == es[i + 1..];
      if es[i].key != key {
        r := r + [es[i]];
      }
    }
  }
}
