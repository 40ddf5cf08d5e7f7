/**
  The duplicate-key walk over a JSON token stream (internal/agent/verify.go): a stack of
  scopes against a recursive reading of the values.
 */
module JsonKeys {
  // ---- JSON values and their tokens -----------------------------------------

  datatype Json = Null | Literal(spelling: string) | Text(s: string) | Array(items: Items) | Object(members: Members)

  datatype Items = NoItems | Item(head: Json, tail: Items)

  datatype Members = NoMembers | Member(key: string, value: Json, rest: Members)

  datatype Token = OpenObject | CloseObject | OpenArray | CloseArray | StringToken(s: string) | OtherToken

  function Tokens(v: Json): seq<Token> {
    match v
    case Null => [OtherToken]
    case Literal(_) => [OtherToken]
    case Text(s) => [StringToken(s)]
    case Array(items) => [OpenArray] + ItemTokens(items) + [CloseArray]
    case Object(members) => [OpenObject] + MemberTokens(members) + [CloseObject]
  }

  function ItemTokens(items: Items): seq<Token> {
    match items
    case NoItems => []
    case Item(v, tail) => Tokens(v) + ItemTokens(tail)
  }

  function MemberTokens(ms: Members): seq<Token> {
    match ms
    case NoMembers => []
    case Member(k, v, rest) => [StringToken(k)] + Tokens(v) + MemberTokens(rest)
  }

  // ---- What the walk is for -------------------------------------------------

  function LowerChar(c: char): char { if 'A' <= c <= 'Z' then c - 'A' + 'a' else c }

  /** Case folding, for ASCII keys. */
  function Lower(s: string): string { seq(|s|, i requires 0 <= i < |s| => LowerChar(s[i])) }

  function Keys(ms: Members): seq<string> {
    if ms.NoMembers? then [] else [ms.key] + Keys(ms.rest)
  }

  predicate DistinctFolded(keys: seq<string>) {
    forall i, j :: 0 <= i < j < |keys| ==> Lower(keys[i]) != Lower(keys[j])
  }

  /** In every object, at every depth, the keys are pairwise distinct when case is folded. */
  predicate NoDuplicates(v: Json) {
    match v
    case Array(items) => NoItemDuplicates(items)
    case Object(members) => DistinctFolded(Keys(members)) && NoMemberDuplicates(members)
    case _ => true
  }

  predicate NoItemDuplicates(items: Items) {
    items.NoItems? || (NoDuplicates(items.head) && NoItemDuplicates(items.tail))
  }

  predicate NoMemberDuplicates(ms: Members) {
    ms.NoMembers? || (NoDuplicates(ms.value) && NoMemberDuplicates(ms.rest))
  }

  // ---- The walk, on values --------------------------------------------------

  datatype Scope = InArray | InObject(seen: set<string>, expectKey: bool)

  /** Underflow stands for popping an empty stack, which must never happen. */
  datatype Walked = Stack(scopes: seq<Scope>) | Duplicate | Underflow

  function AfterValueOf(scopes: seq<Scope>): seq<Scope> {
    var n := |scopes| - 1;
    if scopes != [] && scopes[n].InObject? then scopes[n := scopes[n].(expectKey := true)] else scopes
  }

  predicate ExpectsKey(scopes: seq<Scope>) {
    scopes != [] && scopes[|scopes| - 1].InObject? && scopes[|scopes| - 1].expectKey
  }

  function Step(w: Walked, t: Token): Walked {
    if !w.Stack? then w
    else
      var n := |w.scopes| - 1;
      match t
      case OpenObject => Stack(AfterValueOf(w.scopes) + [InObject({}, true)])
      case OpenArray => Stack(AfterValueOf(w.scopes) + [InArray])
      case CloseObject => if n < 0 then Underflow else Stack(w.scopes[..n])
      case CloseArray => if n < 0 then Underflow else Stack(w.scopes[..n])
      case StringToken(s) =>
        if !ExpectsKey(w.scopes) then Stack(AfterValueOf(w.scopes))
        else if Lower(s) in w.scopes[n].seen then Duplicate
        else Stack(w.scopes[n := InObject(w.scopes[n].seen + {Lower(s)}, false)])
      case OtherToken => Stack(AfterValueOf(w.scopes))
  }

  function Walk(w: Walked, toks: seq<Token>): Walked
    decreases |toks|
  {
    if toks == [] then w else Walk(Step(w, toks[0]), toks[1..])
  }

  lemma {:induction false} WalkConcat(w: Walked, a: seq<Token>, b: seq<Token>)
    ensures Walk(w, a + b) == Walk(Walk(w, a), b)
    decreases |a|
  {
    hide Step;
    if a == [] {
      assert a + b == b;
    } else {
      assert (a + b)[0] == a[0] && (a + b)[1..] == a[1..] + b;
      WalkConcat(Step(w, a[0]), a[1..], b);
    }
  }

  lemma WalkOne(w: Walked, t: Token)
    ensures Walk(w, [t]) == Step(w, t)
  {
    hide Step;
    assert Walk(w, [t]) == Walk(Step(w, t), [t][1..]);
  }

  lemma {:induction false} Settled(w: Walked, toks: seq<Token>)
    requires !w.Stack?
    ensures Walk(w, toks) == w
  {
    if toks != [] {
      Settled(Step(w, toks[0]), toks[1..]);
    }
  }

  function FoldedKeys(ms: Members): set<string> {
    if ms.NoMembers? then {} else {Lower(ms.key)} + FoldedKeys(ms.rest)
  }

  /** No key of ms is among those seen, none repeats, and no value of it holds a repeat. */
  predicate MembersPass(ms: Members, seen: set<string>) {
    ms.NoMembers? ||
    (Lower(ms.key) !in seen && NoDuplicates(ms.value) && MembersPass(ms.rest, seen + {Lower(ms.key)}))
  }

  /** From a place where a value is expected, one value's tokens leave the stack as one value would. */
  lemma {:induction false} WalkValue(scopes: seq<Scope>, v: Json)
    requires !ExpectsKey(scopes)
    ensures Walk(Stack(scopes), Tokens(v)) == if NoDuplicates(v) then Stack(AfterValueOf(scopes)) else Duplicate
    decreases v
  {
    match v {
      case Array(items) =>
        WalkItems(AfterValueOf(scopes) + [InArray], items);
        Bracketed(scopes, OpenArray, ItemTokens(items), CloseArray, InArray, InArray);
      case Object(members) =>
        WalkMembers(AfterValueOf(scopes), {}, members);
        PassExactly(members, {});
        Bracketed(scopes, OpenObject, MemberTokens(members), CloseObject,
                  InObject({}, true), InObject({} + FoldedKeys(members), true));
      case _ =>
        hide Lower;
        WalkOne(Stack(scopes), Tokens(v)[0]);
    }
  }

  /** Between its brackets a scope changes from first to last, or the walk has found a repeat. */
  lemma Bracketed(scopes: seq<Scope>, open: Token, inside: seq<Token>, close: Token, first: Scope, last: Scope)
    requires Step(Stack(scopes), open) == Stack(AfterValueOf(scopes) + [first])
    requires close.CloseArray? || close.CloseObject?
    ensures Walk(Stack(AfterValueOf(scopes) + [first]), inside) == Stack(AfterValueOf(scopes) + [last]) ==>
              Walk(Stack(scopes), [open] + inside + [close]) == Stack(AfterValueOf(scopes))
    ensures Walk(Stack(AfterValueOf(scopes) + [first]), inside) == Duplicate ==>
              Walk(Stack(scopes), [open] + inside + [close]) == Duplicate
  {
    hide AfterValueOf, Walk;
    WalkOne(Stack(scopes), open);
    WalkConcat(Stack(scopes), [open], inside);
    WalkConcat(Stack(scopes), [open] + inside, [close]);
    var outer := AfterValueOf(scopes);
    assert (outer + [last])[..|outer|] == outer;
    WalkOne(Stack(outer + [last]), close);
    WalkOne(Duplicate, close);
  }

  lemma {:induction false} WalkItems(scopes: seq<Scope>, items: Items)
    requires scopes == [] || scopes[|scopes| - 1].InArray?
    ensures Walk(Stack(scopes), ItemTokens(items)) == if NoItemDuplicates(items) then Stack(scopes) else Duplicate
    decreases items
  {
    hide Step;
    match items {
      case NoItems =>
      case Item(v, tail) =>
        WalkValue(scopes, v);
        WalkConcat(Stack(scopes), Tokens(v), ItemTokens(tail));
        if NoDuplicates(v) {
          WalkItems(scopes, tail);
        } else {
          Settled(Duplicate, ItemTokens(tail));
        }
    }
  }

  lemma {:induction false} WalkMembers(outer: seq<Scope>, seen: set<string>, ms: Members)
    ensures Walk(Stack(outer + [InObject(seen, true)]), MemberTokens(ms)) ==
            if MembersPass(ms, seen) then Stack(outer + [InObject(seen + FoldedKeys(ms), true)]) else Duplicate
    decreases ms
  {
    hide Lower;
    match ms {
      case NoMembers =>
        assert seen + {} == seen;
      case Member(k, v, rest) =>
        var scopes := outer + [InObject(seen, true)];
        var n := |outer|;
        WalkOne(Stack(scopes), StringToken(k));
        WalkConcat(Stack(scopes), [StringToken(k)], Tokens(v));
        WalkConcat(Stack(scopes), [StringToken(k)] + Tokens(v), MemberTokens(rest));
        if Lower(k) in seen {
          Settled(Duplicate, Tokens(v));
          Settled(Duplicate, MemberTokens(rest));
        } else {
          MemberGoesOn(outer, seen, k, v, rest);
        }
    }
  }

  lemma {:induction false} MemberGoesOn(outer: seq<Scope>, seen: set<string>, k: string, v: Json, rest: Members)
    requires Lower(k) !in seen
    ensures var scopes := outer + [InObject(seen, true)];
            Walk(Walk(Step(Stack(scopes), StringToken(k)), Tokens(v)), MemberTokens(rest)) ==
            if MembersPass(Member(k, v, rest), seen)
            then Stack(outer + [InObject(seen + FoldedKeys(Member(k, v, rest)), true)]) else Duplicate
    decreases Member(k, v, rest), 0
  {
    hide Lower;
    var scopes := outer + [InObject(seen, true)];
    var n, wider := |outer|, seen + {Lower(k)};
    var inside := outer + [InObject(wider, false)];
    assert scopes[n := InObject(wider, false)] == inside;
    WalkValue(inside, v);
    assert AfterValueOf(inside) == outer + [InObject(wider, true)];
    if NoDuplicates(v) {
      WalkMembers(outer, wider, rest);
      assert wider + FoldedKeys(rest) == seen + FoldedKeys(Member(k, v, rest));
    } else {
      Settled(Duplicate, MemberTokens(rest));
    }
  }

  lemma {:induction false} PassExactly(ms: Members, seen: set<string>)
    ensures MembersPass(ms, seen) <==>
            && DistinctFolded(Keys(ms)) && NoMemberDuplicates(ms)
            && forall k <- Keys(ms) :: Lower(k) !in seen
  {
    hide Lower;
    if ms.Member? {
      PassExactly(ms.rest, seen + {Lower(ms.key)});
      DistinctCons(ms.key, Keys(ms.rest));
    }
  }

  lemma DistinctCons(k: string, keys: seq<string>)
    ensures DistinctFolded([k] + keys) <==> DistinctFolded(keys) && forall q <- keys :: Lower(q) != Lower(k)
  {
    hide Lower;
    var all := [k] + keys;
    if DistinctFolded(all) {
      forall i, j | 0 <= i < j < |keys|
        ensures Lower(keys[i]) != Lower(keys[j])
      {
        assert Lower(all[i + 1]) != Lower(all[j + 1]);
      }
      forall q | q in keys
        ensures Lower(q) != Lower(k)
      {
        var i :| 0 <= i < |keys| && keys[i] == q;
        assert Lower(all[0]) != Lower(all[i + 1]);
      }
    }
  }

  /** The walk accepts a stream of values exactly when no object in any of them repeats a key. */
  lemma WalkAcceptsExactly(vs: Items)
    ensures Walk(Stack([]), ItemTokens(vs)) == if NoItemDuplicates(vs) then Stack([]) else Duplicate
  {
    WalkItems([], vs);
  }

  /** On any part of such a stream from its start, the walk never pops an empty stack. */
  lemma NeverUnderflows(vs: Items, toks: seq<Token>, rest: seq<Token>)
    requires toks + rest == ItemTokens(vs)
    ensures Walk(Stack([]), toks) != Underflow
  {
    WalkAcceptsExactly(vs);
    WalkConcat(Stack([]), toks, rest);
    if Walk(Stack([]), toks) == Underflow {
      Settled(Underflow, rest);
    }
  }

  // ---- The walk as the program makes it -------------------------------------

  /** One open object scope; an array scope is a null frame. */
  class ObjectFrame {
    var seen: set<string>
    var expectKey: bool

    constructor ()
      ensures seen == {} && expectKey
    {
      seen, expectKey := {}, true;
    }
  }

  function FrameScope(f: ObjectFrame?): Scope
    reads f
  {
    if f == null then InArray else InObject(f.seen, f.expectKey)
  }

  ghost function Scopes(stack: seq<ObjectFrame?>): (s: seq<Scope>)
    reads set f | f in stack
    ensures |s| == |stack|
    ensures forall i :: 0 <= i < |stack| ==> s[i] == FrameScope(stack[i])
  {
    seq(|stack|, i requires 0 <= i < |stack| reads set f | f in stack => FrameScope(stack[i]))
  }

  predicate OwnFrames(stack: seq<ObjectFrame?>) {
    forall i, j :: 0 <= i < j < |stack| && stack[i] != null ==> stack[i] != stack[j]
  }

  function TopFrame(stack: seq<ObjectFrame?>): ObjectFrame? {
    if |stack| == 0 then null else stack[|stack| - 1]
  }

  method AfterValue(top: ObjectFrame?, ghost stack: seq<ObjectFrame?>)
    requires OwnFrames(stack) && top == TopFrame(stack)
    modifies if top == null then {} else {top}
    ensures Scopes(stack) == AfterValueOf(old(Scopes(stack)))
  {
    if top != null {
      top.expectKey := true;
    }
  }

  method StepDelim(stack: seq<ObjectFrame?>, top: ObjectFrame?, d: Token) returns (next: seq<ObjectFrame?>)
    requires OwnFrames(stack) && top == TopFrame(stack)
    requires d.OpenObject? || d.OpenArray? || ((d.CloseObject? || d.CloseArray?) && stack != [])
    modifies if top == null then {} else {top}
    ensures OwnFrames(next) && Stack(Scopes(next)) == Step(Stack(old(Scopes(stack))), d)
    ensures forall f <- next :: f != null ==> f in stack || fresh(f)
  {
    if d.OpenObject? {
      AfterValue(top, stack);
      var f := new ObjectFrame();
      next := stack + [f];
      assert Scopes(next) == Scopes(stack) + [InObject({}, true)];
      return;
    }
    if d.OpenArray? {
      AfterValue(top, stack);
      next := stack + [null];
      assert Scopes(next) == Scopes(stack) + [InArray];
      return;
    }
    next := stack[..|stack| - 1];
    assert Scopes(next) == Scopes(stack)[..|stack| - 1];
  }

  datatype GateError = NoError | DuplicateKey | Malformed

  /**
    ensureNoDuplicateKeys over the tokens the decoder yields before the end of input, or before
    an error of its own when broken. rest completes them to a stream of values.
   */
  method EnsureNoDuplicateKeys(toks: seq<Token>, broken: bool, ghost vs: Items, ghost rest: seq<Token>)
    returns (err: GateError)
    requires toks + rest == ItemTokens(vs)
    ensures err == if Walk(Stack([]), toks) == Duplicate then DuplicateKey else if broken then Malformed else NoError
  {
    var stack: seq<ObjectFrame?> := [];
    assert toks[..0] == [];
    for i := 0 to |toks|
      invariant OwnFrames(stack)
      invariant forall f <- stack :: f != null ==> fresh(f)
      invariant Walk(Stack([]), toks[..i]) == Stack(Scopes(stack))
    {
      var tok := toks[i];
      WalkSnoc(toks, i);
      assert toks[..i + 1] + (toks[i + 1..] + rest) == ItemTokens(vs);
      NeverUnderflows(vs, toks[..i + 1], toks[i + 1..] + rest);
      var top := TopFrame(stack);
      assert top != null ==> top in stack;
      if tok.OpenObject? || tok.OpenArray? || tok.CloseObject? || tok.CloseArray? {
        stack := StepDelim(stack, top, tok);
      } else if top != null && top.expectKey && tok.StringToken? {
        var key := Lower(tok.s);
        ghost var before := Scopes(stack);
        if key in top.seen {
          DuplicateStays(toks, i + 1);
          return DuplicateKey;
        }
        top.seen := top.seen + {key};
        top.expectKey := false;
        assert Scopes(stack) == before[|stack| - 1 := InObject(before[|stack| - 1].seen + {key}, false)];
      } else {
        AfterValue(top, stack);
      }
    }
    assert toks[..|toks|] == toks;
    return if broken then Malformed else NoError;
  }

  lemma WalkSnoc(toks: seq<Token>, i: nat)
    requires i < |toks|
    ensures Walk(Stack([]), toks[..i + 1]) == Step(Walk(Stack([]), toks[..i]), toks[i])
  {
    assert toks[..i + 1] == toks[..i] + [toks[i]];
    WalkConcat(Stack([]), toks[..i], [toks[i]]);
    WalkOne(Walk(Stack([]), toks[..i]), toks[i]);
  }

  lemma DuplicateStays(toks: seq<Token>, i: nat)
    requires i <= |toks| && Walk(Stack([]), toks[..i]) == Duplicate
    ensures Walk(Stack([]), toks) == Duplicate
  {
    assert toks == toks[..i] + toks[i..];
    WalkConcat(Stack([]), toks[..i], toks[i..]);
    Settled(Duplicate, toks[i..]);
  }
}
