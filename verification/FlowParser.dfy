/**
  The reader of YAML flow collections (internal/redact/flow.go; flow collections are section 7.4 of
  YAML 1.2): a hand-written stack parser over bytes. A byte is a char here.
 */
module FlowParser {
  import opened Sequences

  // ---- Matchers -------------------------------------------------------------

  /** The patterns and decoders the parser uses without relying on what they accept. */
  datatype Matchers = Matchers(
    direct: string -> bool,
    keyEnd: string -> bool,
    hasTag: string -> bool,
    yamlScalar: string -> string,
    validJson: string -> bool,
    flowLead: string -> nat,
    flowKey: string -> nat)

  const PLACEHOLDER_OPEN := "[REDACTED:"

  predicate Blank(c: char) { c in " \t\r\n" }

  predicate Indicator(c: char) { c in ",[]{}" }

  predicate LabelByte(c: char) { 'a' <= c <= 'z' || '0' <= c <= '9' || c == '-' }

  function LabelLength(s: string): (n: nat)
    ensures n <= |s| && (n < |s| ==> !LabelByte(s[n]))
  {
    if s != [] && LabelByte(s[0]) then 1 + LabelLength(s[1..]) else 0
  }

  /** The length of the placeholder at s[i], or 0. */
  function PlaceholderAt(s: string, i: nat): (n: nat)
    requires i <= |s|
    ensures i + n <= |s|
    ensures n > 0 ==> s[i] == '['
  {
    var rest := s[i..];
    if PLACEHOLDER_OPEN <= rest then
      var size := LabelLength(rest[|PLACEHOLDER_OPEN|..]);
      var close := |PLACEHOLDER_OPEN| + size;
      if size > 0 && close < |rest| && rest[close] == ']' then close + 1 else 0
    else 0
  }

  /** v is a lone placeholder. */
  predicate Done(v: string) { v != "" && PlaceholderAt(v, 0) == |v| }

  function AsciiLower(c: char): char { if 'A' <= c <= 'Z' then c - 'A' + 'a' else c }

  /** strings.EqualFold against a lower-case word no letter of which folds outside ASCII. */
  predicate EqualFold(a: string, word: string) {
    |a| == |word| && forall i :: 0 <= i < |a| ==> AsciiLower(a[i]) == word[i]
  }

  function RunLength(s: string, i: nat, stop: string): (n: nat)
    requires i <= |s|
    ensures i + n <= |s|
    decreases |s| - i
  {
    if i < |s| && s[i] !in stop then 1 + RunLength(s, i + 1, stop) else 0
  }

  function BlankRun(s: string, i: nat): (n: nat)
    requires i <= |s|
    ensures i + n <= |s|
    decreases |s| - i
  {
    if i < |s| && Blank(s[i]) then 1 + BlankRun(s, i + 1) else 0
  }

  /** The length of the anchor and tag properties at s[i], with the blanks after each. */
  function Properties(s: string, i: nat): (n: nat)
    requires i <= |s|
    ensures i + n <= |s|
    ensures n > 0 ==> s[i] == '&' || s[i] == '!'
    decreases |s| - i
  {
    if i == |s| || (s[i] != '&' && s[i] != '!') then 0
    else
      var verbatim := if s[i] == '!' && i + 1 < |s| && s[i + 1] == '<' then RunLength(s, i + 2, "<>") else 0;
      var one :=
        if s[i] == '!' && i + 1 < |s| && s[i + 1] == '<' && i + 2 + verbatim < |s| && s[i + 2 + verbatim] == '>'
        then 3 + verbatim
        else 1 + RunLength(s, i + 1, " \t\r\n,[]{}");
      var all := one + BlankRun(s, i + one);
      all + Properties(s, i + all)
  }

  // ---- What is read ---------------------------------------------------------

  datatype Span = Span(start: nat, end: nat)

  datatype Frame = Frame(key: string, values: seq<Span>, mapping: bool, keyJson: bool, value: bool, named: bool)

  /** A scalar read as a value: its collection, the key it stands under, and where it is. */
  datatype Item = Item(frame: nat, mapping: bool, key: string, keyJson: bool, tag: bool,
                       start: nat, end: nat, closed: bool)

  function Raw(s: string, x: Item): string {
    if x.start <= x.end <= |s| then s[x.start..x.end] else ""
  }

  predicate Quoted(s: string, x: Item) { Raw(s, x) != "" && Raw(s, x)[0] == '"' }

  /** A string under a JSON key keeps its quotes. */
  function SpanOf(s: string, x: Item): Span {
    if x.keyJson && Quoted(s, x) && x.start + 1 <= x.end - (if x.closed then 1 else 0)
    then Span(x.start + 1, x.end - if x.closed then 1 else 0)
    else Span(x.start, x.end)
  }

  function Text(m: Matchers, s: string, x: Item): string { m.yamlScalar(Raw(s, x)) }

  predicate CredentialKey(m: Matchers, key: string, jsonMember: bool) {
    if jsonMember then m.keyEnd(key) else m.direct(key)
  }

  /** A mapping's "name" member that is a credential name. */
  predicate Names(m: Matchers, s: string, x: Item) {
    x.mapping && EqualFold(x.key, "name") && m.keyEnd(Text(m, s, x))
  }

  /** Already a placeholder, or a JSON scalar that is not a string. */
  predicate LeftAlone(m: Matchers, s: string, x: Item) {
    var sp := SpanOf(s, x);
    || Done(Raw(s, x)) || Done(Text(m, s, x)) || (sp.start <= sp.end <= |s| && Done(s[sp.start..sp.end]))
    || (x.keyJson && !x.tag && !Quoted(s, x) && m.validJson(Raw(s, x)))
  }

  predicate Direct(m: Matchers, s: string, x: Item) {
    !LeftAlone(m, s, x) && CredentialKey(m, x.key, x.keyJson && Quoted(s, x))
  }

  /** A mapping's "value" member. */
  predicate Member(m: Matchers, s: string, x: Item) {
    && !LeftAlone(m, s, x) && !CredentialKey(m, x.key, x.keyJson && Quoted(s, x))
    && x.mapping && EqualFold(x.key, "value")
  }

  predicate NamedFrame(m: Matchers, s: string, items: seq<Item>, frame: nat) {
    exists y <- items :: y.frame == frame && Names(m, s, y)
  }

  /** x is to be replaced: its key names a credential, or it is the "value" of a mapping some "name" of which does. */
  predicate Replaced(m: Matchers, s: string, items: seq<Item>, x: Item) {
    Direct(m, s, x) || (Member(m, s, x) && NamedFrame(m, s, items, x.frame))
  }

  predicate InBounds(s: string, x: Item) {
    x.start < x.end <= |s| && (x.closed ==> x.start + 2 <= x.end)
  }

  /** The same member, wherever it stands: the same key and the same scalar. */
  predicate Alike(s: string, x: Item, s': string, x': Item) {
    && InBounds(s, x) && InBounds(s', x') && Raw(s, x) == Raw(s', x')
    && x.mapping == x'.mapping && x.key == x'.key && x.keyJson == x'.keyJson && x.tag == x'.tag && x.closed == x'.closed
  }

  /** Two readings of the same members in another order: item a of the one is item p[a] of the other. */
  predicate SameMembers(s: string, items: seq<Item>, s': string, items': seq<Item>, p: seq<nat>) {
    && |p| == |items| == |items'|
    && (forall a :: 0 <= a < |p| ==> p[a] < |items'| && Alike(s, items[a], s', items'[p[a]]))
    && (forall b: nat :: b < |items'| ==> b in p)
    && (forall a, b :: 0 <= a < |p| && 0 <= b < |p| ==>
          (items[a].frame == items[b].frame <==> items'[p[a]].frame == items'[p[b]].frame))
  }

  function Covered(s: string, sp: Span): string {
    if sp.start <= sp.end <= |s| then s[sp.start..sp.end] else ""
  }

  /** What a member does by itself does not depend on where it stands. */
  lemma AlikeDecides(m: Matchers, s: string, x: Item, s': string, x': Item)
    requires Alike(s, x, s', x')
    ensures Covered(s, SpanOf(s, x)) == Covered(s', SpanOf(s', x'))
    ensures Direct(m, s, x) <==> Direct(m, s', x')
    ensures Member(m, s, x) <==> Member(m, s', x')
    ensures Names(m, s, x) <==> Names(m, s', x')
  {
    hide Done, EqualFold;
    AlikeSpans(s, x, s', x');
    hide SpanOf, Alike;
  }

  lemma AlikeSpans(s: string, x: Item, s': string, x': Item)
    requires Alike(s, x, s', x')
    ensures var sp, sp' := SpanOf(s, x), SpanOf(s', x');
            && sp.start <= sp.end <= |s| && sp'.start <= sp'.end <= |s'|
            && s[sp.start..sp.end] == s'[sp'.start..sp'.end]
    ensures Raw(s, x) == Raw(s', x') && (Quoted(s, x) <==> Quoted(s', x'))
    ensures x.mapping == x'.mapping && x.key == x'.key && x.keyJson == x'.keyJson && x.tag == x'.tag
  {
    var raw := Raw(s, x);
    assert |raw| == x.end - x.start == x'.end - x'.start;
    var cut := if x.closed then 1 else 0;
    var sp, sp' := SpanOf(s, x), SpanOf(s', x');
    if sp != Span(x.start, x.end) {
      SliceOfSlice(s, x.start, x.end, 1, |raw| - cut);
      SliceOfSlice(s', x'.start, x'.end, 1, |raw| - cut);
    }
  }

  /**
    Order does not matter: with the same members in another order, in the same text or another, a value is
    replaced in the one exactly when it is in the other, and what is replaced of it is the same text. So a
    mapping's "value" member is treated alike whether its "name" member comes before it or after it.
   */
  lemma OrderFree(m: Matchers, s: string, items: seq<Item>, s': string, items': seq<Item>, p: seq<nat>, a: nat)
    requires SameMembers(s, items, s', items', p) && a < |p|
    ensures Replaced(m, s, items, items[a]) <==> Replaced(m, s', items', items'[p[a]])
    ensures Covered(s, SpanOf(s, items[a])) == Covered(s', SpanOf(s', items'[p[a]]))
  {
    Partners(s, items, s', items', p, a);
    AlikeDecides(m, s, items[a], s', items'[p[a]]);
    NamedForth(m, s, items, s', items', p, a);
    NamedBack(m, s, items, s', items', p, a);
    hide Direct, Member, NamedFrame, SameMembers, Alike, Covered, SpanOf;
  }

  lemma Partners(s: string, items: seq<Item>, s': string, items': seq<Item>, p: seq<nat>, a: nat)
    requires SameMembers(s, items, s', items', p) && a < |p|
    ensures |items| == |p| == |items'| && p[a] < |items'| && Alike(s, items[a], s', items'[p[a]])
  {
    hide Alike;
  }

  lemma Mates(s: string, items: seq<Item>, s': string, items': seq<Item>, p: seq<nat>, a: nat, b: nat)
    requires SameMembers(s, items, s', items', p) && a < |p| && b < |p|
    ensures |items| == |p| == |items'| && p[a] < |items'| && p[b] < |items'|
    ensures items[a].frame == items[b].frame <==> items'[p[a]].frame == items'[p[b]].frame
  {
    hide Alike;
  }

  lemma NamedForth(m: Matchers, s: string, items: seq<Item>, s': string, items': seq<Item>, p: seq<nat>, a: nat)
    requires SameMembers(s, items, s', items', p) && a < |p| && a < |items| && p[a] < |items'|
    ensures NamedFrame(m, s, items, items[a].frame) ==> NamedFrame(m, s', items', items'[p[a]].frame)
  {
    if NamedFrame(m, s, items, items[a].frame) {
      var y :| y in items && y.frame == items[a].frame && Names(m, s, y);
      var b: nat :| b < |items| && items[b] == y;
      Partners(s, items, s', items', p, b);
      Mates(s, items, s', items', p, a, b);
      AlikeDecides(m, s, items[b], s', items'[p[b]]);
      hide Names, SameMembers, Alike;
      assert items'[p[b]] in items';
    }
  }

  lemma NamedBack(m: Matchers, s: string, items: seq<Item>, s': string, items': seq<Item>, p: seq<nat>, a: nat)
    requires SameMembers(s, items, s', items', p) && a < |p| && a < |items| && p[a] < |items'|
    ensures NamedFrame(m, s', items', items'[p[a]].frame) ==> NamedFrame(m, s, items, items[a].frame)
  {
    if NamedFrame(m, s', items', items'[p[a]].frame) {
      var y :| y in items' && y.frame == items'[p[a]].frame && Names(m, s', y);
      var c: nat :| c < |items'| && items'[c] == y;
      var b := Origin(s, items, s', items', p, c);
      Partners(s, items, s', items', p, b);
      Mates(s, items, s', items', p, a, b);
      AlikeDecides(m, s, items[b], s', items'[p[b]]);
      hide Names, SameMembers, Alike;
      assert items[b] in items;
    }
  }

  lemma Origin(s: string, items: seq<Item>, s': string, items': seq<Item>, p: seq<nat>, c: nat) returns (b: nat)
    requires SameMembers(s, items, s', items', p) && c < |items'|
    ensures b < |p| && p[b] == c
  {
    hide Alike;
    assert c in p;
    b :| b < |p| && p[b] == c;
  }

  // ---- The record of a reading ----------------------------------------------

  /**
    items are the values read, in order; ids are the numbers of the open frames, innermost last, of
    total opened so far; winners are the closed frames a name of which is a credential name.
   */
  datatype Reading = Reading(items: seq<Item>, ids: seq<nat>, winners: set<nat>, total: nat)

  predicate Increasing(ns: seq<nat>) { forall j, k :: 0 <= j < k < |ns| ==> ns[j] < ns[k] }

  /** The items lie one after another in s, from lo to hi. */
  predicate InText(s: string, items: seq<Item>, lo: nat, hi: nat) {
    lo <= hi <= |s| &&
    if items == [] then true
    else
      var x := items[|items| - 1];
      && lo <= x.start < x.end <= hi && (x.closed ==> x.start + 2 <= x.end)
      && InText(s, items[..|items| - 1], lo, x.start)
  }

  /** The spans of the "value" members of one frame. */
  function ValuesOf(m: Matchers, s: string, items: seq<Item>, frame: nat): seq<Span> {
    if items == [] then []
    else
      var x := items[|items| - 1];
      ValuesOf(m, s, items[..|items| - 1], frame) + if x.frame == frame && Member(m, s, x) then [SpanOf(s, x)] else []
  }

  /** The spans of what is decided once the frames in winners are closed. */
  function Decided(m: Matchers, s: string, items: seq<Item>, winners: set<nat>): seq<Span> {
    if items == [] then []
    else
      var x := items[|items| - 1];
      Decided(m, s, items[..|items| - 1], winners) +
      if Direct(m, s, x) || (Member(m, s, x) && x.frame in winners) then [SpanOf(s, x)] else []
  }

  /** The spans of the items of part that are to be replaced, given all the items. */
  function ReplacedSpans(m: Matchers, s: string, part: seq<Item>, all: seq<Item>): seq<Span> {
    if part == [] then []
    else
      var x := part[|part| - 1];
      ReplacedSpans(m, s, part[..|part| - 1], all) + if Replaced(m, s, all, x) then [SpanOf(s, x)] else []
  }

  predicate FrameOk(m: Matchers, s: string, items: seq<Item>, id: nat, f: Frame) {
    f.values == ValuesOf(m, s, items, id) && (f.named <==> NamedFrame(m, s, items, id))
  }

  predicate FramesOk(m: Matchers, s: string, g: Reading, frames: seq<Frame>) {
    |g.ids| == |frames| && forall k :: 0 <= k < |frames| ==> FrameOk(m, s, g.items, g.ids[k], frames[k])
  }

  predicate IdsOk(m: Matchers, s: string, g: Reading) {
    && Increasing(g.ids)
    && (forall f <- g.ids :: f < g.total && f !in g.winners)
    && (forall x <- g.items :: x.frame < g.total)
    && (forall f: nat :: f in g.winners ==> f < g.total)
    && (forall f: nat | f < g.total && f !in g.ids :: f in g.winners <==> NamedFrame(m, s, g.items, f))
  }

  predicate Agrees(m: Matchers, s: string, g: Reading, frames: seq<Frame>, spans: seq<Span>) {
    && IdsOk(m, s, g)
    && FramesOk(m, s, g, frames)
    && multiset(spans) == multiset(Decided(m, s, g.items, g.winners))
  }

  function Top<T>(stack: seq<T>): T
    requires stack != []
  {
    stack[|stack| - 1]
  }

  function ReplaceTop<T>(stack: seq<T>, x: T): seq<T>
    requires stack != []
  {
    stack[|stack| - 1 := x]
  }

  lemma {:induction false} NoneOf(m: Matchers, s: string, items: seq<Item>, frame: nat)
    requires forall x <- items :: x.frame != frame
    ensures ValuesOf(m, s, items, frame) == [] && !NamedFrame(m, s, items, frame)
  {
    if items != [] {
      NoneOf(m, s, items[..|items| - 1], frame);
      assert items[|items| - 1] in items;
    }
  }

  function Opened(g: Reading): Reading {
    g.(ids := g.ids + [g.total], total := g.total + 1)
  }

  lemma OpenAgrees(m: Matchers, s: string, g: Reading, frames: seq<Frame>, spans: seq<Span>, mapping: bool)
    requires Agrees(m, s, g, frames, spans)
    ensures Agrees(m, s, Opened(g), frames + [Frame("", [], mapping, false, false, false)], spans)
  {
    NoneOf(m, s, g.items, g.total);
    hide Direct, Member, Names, SpanOf, NamedFrame, ValuesOf, Decided;
    assert forall f :: f in Opened(g).ids <==> f in g.ids || f == g.total;
    assert g.total !in g.winners;
    assert forall k :: 0 <= k < |g.ids| ==> g.ids[k] in g.ids;
  }

  /** The frame after the value x. */
  function Gained(m: Matchers, s: string, f: Frame, x: Item): Frame {
    f.(values := if Member(m, s, x) then f.values + [SpanOf(s, x)] else f.values,
       named := f.named || Names(m, s, x))
  }

  lemma NamedSnoc(m: Matchers, s: string, items: seq<Item>, x: Item, frame: nat)
    ensures NamedFrame(m, s, items + [x], frame) <==>
              NamedFrame(m, s, items, frame) || (x.frame == frame && Names(m, s, x))
  {
    hide Names;
    assert forall y :: y in items + [x] <==> y in items || y == x;
  }

  lemma ItemSnoc(m: Matchers, s: string, items: seq<Item>, x: Item, frame: nat, winners: set<nat>)
    ensures ValuesOf(m, s, items + [x], frame) ==
              ValuesOf(m, s, items, frame) + if x.frame == frame && Member(m, s, x) then [SpanOf(s, x)] else []
    ensures Decided(m, s, items + [x], winners) ==
              Decided(m, s, items, winners) +
              if Direct(m, s, x) || (Member(m, s, x) && x.frame in winners) then [SpanOf(s, x)] else []
  {
    hide Names, Direct, Member, SpanOf;
    assert (items + [x])[..|items|] == items;
  }

  lemma IdsRead(m: Matchers, s: string, g: Reading, x: Item)
    requires IdsOk(m, s, g) && x.frame in g.ids
    ensures IdsOk(m, s, g.(items := g.items + [x]))
  {
    hide Names, NamedFrame;
    var w := g.(items := g.items + [x]);
    assert forall y :: y in w.items <==> y in g.items || y == x;
    forall f: nat | f < g.total && f !in g.ids
      ensures f in g.winners <==> NamedFrame(m, s, w.items, f)
    {
      NamedSnoc(m, s, g.items, x, f);
    }
  }

  lemma FrameRead(m: Matchers, s: string, items: seq<Item>, id: nat, f: Frame, x: Item)
    requires FrameOk(m, s, items, id, f)
    ensures FrameOk(m, s, items + [x], id, if x.frame == id then Gained(m, s, f, x) else f)
  {
    hide Names, Member, SpanOf, NamedFrame, ValuesOf;
    ItemSnoc(m, s, items, x, id, {});
    NamedSnoc(m, s, items, x, id);
    assert ValuesOf(m, s, items, id) + [] == ValuesOf(m, s, items, id);
  }

  lemma FramesRead(m: Matchers, s: string, g: Reading, frames: seq<Frame>, x: Item)
    requires FramesOk(m, s, g, frames) && Increasing(g.ids) && frames != [] && x.frame == Top(g.ids)
    ensures FramesOk(m, s, g.(items := g.items + [x]), ReplaceTop(frames, Gained(m, s, Top(frames), x)))
  {
    hide FrameOk, Gained;
    var after := ReplaceTop(frames, Gained(m, s, Top(frames), x));
    forall k | 0 <= k < |frames|
      ensures FrameOk(m, s, g.items + [x], g.ids[k], after[k])
    {
      assert k < |frames| - 1 ==> g.ids[k] < Top(g.ids);
      FrameRead(m, s, g.items, g.ids[k], frames[k], x);
    }
  }

  lemma ReadAgrees(m: Matchers, s: string, g: Reading, frames: seq<Frame>, spans: seq<Span>, x: Item)
    requires Agrees(m, s, g, frames, spans) && frames != [] && x.frame == Top(g.ids)
    ensures Agrees(m, s, g.(items := g.items + [x]), ReplaceTop(frames, Gained(m, s, Top(frames), x)),
                   if Direct(m, s, x) then spans + [SpanOf(s, x)] else spans)
  {
    assert Top(g.ids) in g.ids && x.frame !in g.winners;
    IdsRead(m, s, g, x);
    FramesRead(m, s, g, frames, x);
    ItemSnoc(m, s, g.items, x, x.frame, g.winners);
    hide IdsOk, FramesOk, Direct, Member, SpanOf, Decided, Gained, Names;
  }

  /** Setting the key of the top frame, or whether a value follows, changes nothing that is recorded. */
  lemma RekeyAgrees(m: Matchers, s: string, g: Reading, frames: seq<Frame>, spans: seq<Span>, f: Frame)
    requires Agrees(m, s, g, frames, spans) && frames != []
    requires f.values == Top(frames).values && f.named == Top(frames).named
    ensures Agrees(m, s, g, ReplaceTop(frames, f), spans)
  {
    hide NamedFrame, ValuesOf, Decided, IdsOk;
  }

  function Closed(g: Reading, named: bool): Reading
    requires g.ids != []
  {
    g.(ids := g.ids[..|g.ids| - 1], winners := if named then g.winners + {Top(g.ids)} else g.winners)
  }

  /** Closing a frame that won adds its values to what is decided. */
  lemma {:induction false} OneMoreWinner(m: Matchers, s: string, items: seq<Item>, winners: set<nat>, frame: nat)
    requires frame !in winners
    ensures multiset(Decided(m, s, items, winners + {frame})) ==
              multiset(Decided(m, s, items, winners)) + multiset(ValuesOf(m, s, items, frame))
  {
    hide Names, SpanOf, Decided, ValuesOf, Direct, Member;
    if items == [] {
      NothingDecided(m, s, winners, frame);
      NothingDecided(m, s, winners + {frame}, frame);
    } else {
      var init, x := items[..|items| - 1], items[|items| - 1];
      assert items == init + [x];
      OneMoreWinner(m, s, init, winners, frame);
      ItemSnoc(m, s, init, x, frame, winners);
      ItemSnoc(m, s, init, x, frame, winners + {frame});
      DirectIsNoMember(m, s, x);
    }
  }

  lemma NothingDecided(m: Matchers, s: string, winners: set<nat>, frame: nat)
    ensures Decided(m, s, [], winners) == [] && ValuesOf(m, s, [], frame) == []
  {
  }

  lemma DirectIsNoMember(m: Matchers, s: string, x: Item)
    ensures !(Direct(m, s, x) && Member(m, s, x))
  {
  }

  lemma CloseAgrees(m: Matchers, s: string, g: Reading, frames: seq<Frame>, spans: seq<Span>)
    requires Agrees(m, s, g, frames, spans) && frames != []
    ensures Agrees(m, s, Closed(g, Top(frames).named), frames[..|frames| - 1],
                   if Top(frames).named then spans + Top(frames).values else spans)
  {
    hide Names, Direct, Member, SpanOf, NamedFrame, Decided, ValuesOf;
    var id := Top(g.ids);
    assert id in g.ids;
    OneMoreWinner(m, s, g.items, g.winners, id);
    var c := Closed(g, Top(frames).named);
    assert forall f :: f in c.ids <==> f in g.ids && f != id;
  }

  /** With every frame closed, what is decided is what is to be replaced. */
  lemma {:induction false} AllDecided(m: Matchers, s: string, part: seq<Item>, g: Reading)
    requires IdsOk(m, s, g) && g.ids == []
    requires forall x <- part :: x in g.items
    ensures Decided(m, s, part, g.winners) == ReplacedSpans(m, s, part, g.items)
  {
    hide Names, Direct, Member, SpanOf, NamedFrame;
    if part != [] {
      assert part[|part| - 1] in part;
      AllDecided(m, s, part[..|part| - 1], g);
    }
  }

  // ---- Spans do not overlap -------------------------------------------------

  predicate Apart(a: Span, b: Span) { a.end <= b.start || b.end <= a.start }

  predicate PairwiseApart(spans: seq<Span>) {
    forall i, j :: 0 <= i < j < |spans| ==> Apart(spans[i], spans[j])
  }

  predicate Within(spans: seq<Span>, lo: nat, hi: nat) {
    forall sp <- spans :: lo <= sp.start <= sp.end <= hi
  }

  predicate InOrder(spans: seq<Span>) {
    forall i, j :: 0 <= i < j < |spans| ==> spans[i].end <= spans[j].start
  }

  lemma {:induction false} ReplacedInOrder(m: Matchers, s: string, part: seq<Item>, all: seq<Item>, lo: nat, hi: nat)
    requires InText(s, part, lo, hi)
    ensures InOrder(ReplacedSpans(m, s, part, all)) && Within(ReplacedSpans(m, s, part, all), lo, hi)
  {
    hide Replaced;
    if part != [] {
      var x := part[|part| - 1];
      ReplacedInOrder(m, s, part[..|part| - 1], all, lo, x.start);
      assert x.start <= SpanOf(s, x).start <= SpanOf(s, x).end <= x.end;
      hide SpanOf;
      var r := ReplacedSpans(m, s, part[..|part| - 1], all);
      assert forall i :: 0 <= i < |r| ==> r[i] in r;
    }
  }

  lemma {:induction false} Twice(r: seq<Span>, x: Span)
    requires multiset(r)[x] >= 2
    ensures exists i, j :: 0 <= i < j < |r| && r[i] == x && r[j] == x
  {
    var n := |r| - 1;
    assert r == r[..n] + [r[n]];
    if r[n] == x {
      assert x in multiset(r[..n]);
      var i :| 0 <= i < n && r[..n][i] == x;
      assert r[i] == x && r[n] == x;
    } else {
      Twice(r[..n], x);
      var i, j :| 0 <= i < j < n && r[..n][i] == x && r[..n][j] == x;
      assert r[i] == x && r[j] == x;
    }
  }

  lemma CountOfTwo(spans: seq<Span>, i: nat, j: nat)
    requires i < j < |spans| && spans[i] == spans[j]
    ensures multiset(spans)[spans[i]] >= 2
  {
    assert spans == spans[..j] + [spans[j]] + spans[j + 1..];
    assert spans[..j][i] == spans[i];
    assert multiset(spans) == multiset(spans[..j]) + multiset{spans[j]} + multiset(spans[j + 1..]);
  }

  lemma PermutedApart(spans: seq<Span>, r: seq<Span>)
    requires multiset(spans) == multiset(r) && InOrder(r)
    ensures PairwiseApart(spans)
  {
    forall i, j | 0 <= i < j < |spans|
      ensures Apart(spans[i], spans[j])
    {
      if spans[i] == spans[j] {
        CountOfTwo(spans, i, j);
        Twice(r, spans[i]);
      } else {
        assert spans[i] in multiset(r) && spans[j] in multiset(r);
        assert spans[i] in r && spans[j] in r;
      }
    }
  }

  // ---- The parser -----------------------------------------------------------

  lemma {:induction false} InTextWider(s: string, items: seq<Item>, lo: nat, hi: nat, wider: nat)
    requires InText(s, items, lo, hi) && hi <= wider <= |s|
    ensures InText(s, items, lo, wider)
  {
  }

  lemma InTextSnoc(s: string, items: seq<Item>, lo: nat, hi: nat, x: Item)
    requires InText(s, items, lo, hi) && hi <= x.start < x.end <= |s| && (x.closed ==> x.start + 2 <= x.end)
    ensures InText(s, items + [x], lo, x.end)
  {
    InTextWider(s, items, lo, hi, x.start);
    assert (items + [x])[..|items|] == items;
  }

  /** A node cannot start here: a flow indicator or ':', and no placeholder. */
  predicate EndsNode(s: string, i: nat)
    requires i < |s|
  {
    (Indicator(s[i]) || s[i] == ':') && PlaceholderAt(s, i) == 0
  }

  predicate OpensCollection(s: string, i: nat)
    requires i < |s|
  {
    (s[i] == '{' || s[i] == '[') && PlaceholderAt(s, i) == 0
  }

  /** The bytes from i to j are whole pieces of a scalar in this quote: single bytes, escapes, doubled quotes. */
  predicate Pieces(s: string, quote: char, i: nat, j: nat)
    requires j <= |s|
    decreases |s| - i
  {
    i == j ||
    (i < j &&
     if quote == '"' && s[i] == '\\' then Pieces(s, quote, i + 2, j)
     else if s[i] == quote then Doubled(s, quote, i) && Pieces(s, quote, i + 2, j)
     else Pieces(s, quote, i + 1, j))
  }

  predicate Doubled(s: string, quote: char, i: nat)
    requires i < |s|
  {
    quote == '\'' && i + 1 < |s| && s[i] == quote && s[i + 1] == quote
  }

  /** Only whole pieces stand between the opening quote and j, and the quote at j is not one of them. */
  predicate ClosesAt(s: string, start: nat, j: nat)
    requires start < |s|
  {
    start < j < |s| && s[j] == s[start] && !Doubled(s, s[start], j) && Pieces(s, s[start], start + 1, j)
  }

  lemma {:induction false} PiecesJoin(s: string, quote: char, i: nat, j: nat, k: nat)
    requires i <= j <= k <= |s| && Pieces(s, quote, i, j)
    ensures Pieces(s, quote, i, k) <==> Pieces(s, quote, j, k)
    decreases |s| - i
  {
    if i < j {
      var n := if (quote == '"' && s[i] == '\\') || s[i] == quote then i + 2 else i + 1;
      assert n <= j;
      PiecesJoin(s, quote, n, j, k);
    }
  }

  /** closeQuote: the first quote that closes the one at start, or -1 when none does. */
  method CloseQuote(s: string, start: nat) returns (q: int)
    requires start < |s|
    ensures q == -1 ==> forall j: nat :: !ClosesAt(s, start, j)
    ensures q != -1 ==> q >= 0 && ClosesAt(s, start, q) && forall j: nat :: j < q ==> !ClosesAt(s, start, j)
  {
    var quote := s[start];
    var i := start + 1;
    while i < |s|
      invariant start < i <= |s| + 1
      invariant i <= |s| ==> Pieces(s, quote, start + 1, i)
      invariant forall j: nat :: j < i ==> !ClosesAt(s, start, j)
    {
      var n := i + 1;
      if quote == '"' && s[i] == '\\' {
        n := i + 2;
      } else if s[i] == quote && quote == '\'' && i + 1 < |s| && s[i + 1] == '\'' {
        n := i + 2;
      } else if s[i] == quote {
        return i;
      }
      PiecesJoin(s, quote, start + 1, i, i + 1);
      if n <= |s| {
        PiecesJoin(s, quote, start + 1, i, n);
      }
      i := n;
    }
    return -1;
  }

  /** A plain scalar cannot go on over the byte at k: section 7.3.3 of YAML 1.2. */
  predicate StopsPlain(s: string, k: nat, key: bool)
    requires 0 < k < |s|
  {
    || Indicator(s[k]) || (key && s[k] == '\n')
    || (s[k] == ':' && (k + 1 == |s| || Blank(s[k + 1]) || Indicator(s[k + 1])))
    || (s[k] == '#' && Blank(s[k - 1]))
  }

  /** stop is the first place from first on where a plain scalar stops; end is that without the blanks before it. */
  predicate EndsPlain(s: string, first: nat, key: bool, end: nat, stop: nat)
    requires 0 < first
  {
    && first <= end <= stop <= |s|
    && (stop < |s| ==> StopsPlain(s, stop, key))
    && (forall k :: first <= k < stop ==> !StopsPlain(s, k, key))
    && (forall k :: end <= k < stop ==> Blank(s[k]))
    && (end > first ==> !Blank(s[end - 1]))
  }

  /** Where a plain scalar's second byte is: it may start with a placeholder. */
  function PlainStart(s: string, start: nat): (first: nat)
    requires start < |s|
    ensures start < first <= |s|
  {
    start + if PlaceholderAt(s, start) > 0 then PlaceholderAt(s, start) else 1
  }

  /** The plain part of scalarEnd. */
  method PlainEnd(s: string, start: nat, key: bool) returns (end: nat, ghost stop: nat)
    requires start < |s|
    ensures start < end <= |s| && EndsPlain(s, PlainStart(s, start), key, end, stop)
  {
    hide PlaceholderAt;
    var first := PlainStart(s, start);
    end := first;
    var i := end;
    while i < |s|
      invariant first <= end <= i <= |s|
      invariant end > first ==> !Blank(s[end - 1])
      invariant forall k :: end <= k < i ==> Blank(s[k])
      invariant forall k :: first <= k < i ==> !StopsPlain(s, k, key)
    {
      var c := s[i];
      if Indicator(c) || (key && c == '\n')
         || (c == ':' && (i + 1 == |s| || Blank(s[i + 1]) || Indicator(s[i + 1])))
         || (c == '#' && Blank(s[i - 1])) {
        break;
      }
      if !Blank(c) {
        end := i + 1;
      }
      i := i + 1;
    }
    stop := i;
  }

  /** scalarEnd: where the scalar at start is over; closed tells a quoted one with a closing quote. */
  method ScalarEnd(s: string, start: nat, key: bool) returns (end: nat, closed: bool, ghost stop: nat)
    requires start < |s|
    ensures start < end <= |s|
    ensures closed ==> start + 2 <= end && ClosesAt(s, start, end - 1) && (s[start] == '"' || s[start] == '\'')
    ensures !closed && (s[start] == '"' || s[start] == '\'') ==> end == |s| && forall j: nat :: !ClosesAt(s, start, j)
    ensures s[start] != '"' && s[start] != '\'' ==> EndsPlain(s, PlainStart(s, start), key, end, stop)
  {
    stop := |s|;
    if s[start] == '"' || s[start] == '\'' {
      var q := CloseQuote(s, start);
      if q >= 0 {
        return q + 1, true, stop;
      }
      return |s|, false, stop;
    }
    end, stop := PlainEnd(s, start, key);
    closed := false;
  }

  lemma ValueAgrees(m: Matchers, s: string, g: Reading, frames: seq<Frame>, spans: seq<Span>, x: Item, f: Frame,
                    more: seq<Span>)
    requires Agrees(m, s, g, frames, spans) && frames != [] && x.frame == Top(g.ids)
    requires f == Gained(m, s, Top(frames), x)
    requires more == if Direct(m, s, x) then [SpanOf(s, x)] else []
    ensures Agrees(m, s, g.(items := g.items + [x]), ReplaceTop(frames, f.(value := false)), spans + more)
  {
    ReadAgrees(m, s, g, frames, spans, x);
    hide Agrees, Direct, Gained, SpanOf;
    assert spans + [] == spans;
    var w := g.(items := g.items + [x]);
    RekeyAgrees(m, s, w, ReplaceTop(frames, f), spans + more, f.(value := false));
    assert ReplaceTop(ReplaceTop(frames, f), f.(value := false)) == ReplaceTop(frames, f.(value := false));
  }

  /** What the value x does, in terms of the text of its scalar. */
  lemma Decisions(m: Matchers, s: string, x: Item, f: Frame, sp: Span)
    requires x.start < x.end <= |s| && (x.closed ==> x.start + 2 <= x.end)
    requires x.mapping == f.mapping && x.key == f.key && x.keyJson == f.keyJson
    requires sp == if x.keyJson && s[x.start] == '"'
                   then Span(x.start + 1, x.end - if x.closed then 1 else 0)
                   else Span(x.start, x.end)
    ensures var raw := s[x.start..x.end];
            var text := m.yamlScalar(raw);
            var left := Done(raw) || Done(text) || Done(s[sp.start..sp.end])
                        || (x.keyJson && !x.tag && raw[0] != '"' && m.validJson(raw));
            var direct := !left && CredentialKey(m, x.key, x.keyJson && raw[0] == '"');
            var member := !left && !direct && x.mapping && EqualFold(x.key, "value");
            && SpanOf(s, x) == sp
            && (Direct(m, s, x) <==> direct)
            && Gained(m, s, f, x) ==
                 f.(values := if member then f.values + [sp] else f.values,
                    named := f.named || (x.mapping && EqualFold(x.key, "name") && m.keyEnd(text)))
  {
    hide Done, EqualFold;
  }

  /** The branches of scalar that decide what a value does: the frame after it, and the span it emits at once. */
  method Decide(m: Matchers, s: string, top: Frame, start: nat, end: nat, closed: bool, tag: bool, ghost x: Item)
    returns (f: Frame, more: seq<Span>)
    requires start < end <= |s| && (closed ==> start + 2 <= end)
    requires x == Item(x.frame, top.mapping, top.key, top.keyJson, tag, start, end, closed)
    ensures f == Gained(m, s, top, x)
    ensures more == if Direct(m, s, x) then [SpanOf(s, x)] else []
  {
    hide Done, EqualFold, CredentialKey, SpanOf, LeftAlone, Direct, Member, Names, Gained;
    var raw := s[start..end];
    var text := m.yamlScalar(raw);
    f, more := top, [];
    if top.mapping && EqualFold(top.key, "name") && m.keyEnd(text) {
      f := f.(named := true);
    }
    var sp := Span(start, end);
    if top.keyJson && raw[0] == '"' {
      sp := Span(start + 1, end - if closed then 1 else 0);
    }
    Decisions(m, s, x, top, sp);
    if Done(raw) || Done(text) || Done(s[sp.start..sp.end])
       || (top.keyJson && !tag && raw[0] != '"' && m.validJson(raw)) {
    } else if CredentialKey(m, top.key, top.keyJson && raw[0] == '"') {
      more := [sp];
    } else if top.mapping && EqualFold(top.key, "value") {
      f := f.(values := f.values + [sp]);
    }
  }

  /** Past blanks, line breaks and comments; a comment opens only after a blank. */
  function SpaceEnd(s: string, i: nat): (j: nat)
    requires i <= |s|
    ensures i <= j <= |s|
    ensures j < |s| ==> !Blank(s[j]) && (j > 0 && s[j] == '#' ==> !Blank(s[j - 1]))
    decreases |s| - i
  {
    if i < |s| && Blank(s[i]) then SpaceEnd(s, i + 1)
    else if 0 < i < |s| && s[i] == '#' && Blank(s[i - 1]) then SpaceEnd(s, i + RunLength(s, i, "\n"))
    else i
  }

  /** Where the node starts whose properties are at i, and whether they hold a tag. */
  function NodeStart(m: Matchers, s: string, i: nat): (r: (nat, bool))
    requires i <= |s|
    ensures i <= r.0 <= |s| && (r.0 == i ==> !r.1) && Properties(s, r.0) == 0
    decreases |s| - i
  {
    var n := Properties(s, i);
    if n == 0 then (i, false)
    else
      var (j, tag) := NodeStart(m, s, SpaceEnd(s, i + n));
      (j, tag || m.hasTag(s[i..i + n]))
  }

  lemma NodeStartStep(m: Matchers, s: string, i: nat)
    requires i <= |s|
    ensures var n := Properties(s, i);
            if n == 0 then NodeStart(m, s, i) == (i, false)
            else
              var next := NodeStart(m, s, SpaceEnd(s, i + n));
              NodeStart(m, s, i) == (next.0, next.1 || m.hasTag(s[i..i + n]))
  {
  }

  /** The frame once a key is read. A key that names a credential stays, whatever else is read as a key. */
  function Keyed(m: Matchers, f: Frame, raw: string): Frame
    requires raw != ""
  {
    if m.direct(f.key) then f
    else f.(key := m.yamlScalar(raw), keyJson := raw[0] == '"' && m.validJson(raw))
  }

  /** Where the parser is between two turns. */
  datatype Config = Config(i: nat, frames: seq<Frame>, g: Reading, keys: set<nat>)

  predicate Sane(s: string, c: Config) { c.i <= |s| && |c.frames| == |c.g.ids| }

  /** What reading the scalar from start to end does, whose node is at node: it is a key or a value. */
  predicate ReadsAt(m: Matchers, s: string, node: nat, start: nat, tag: bool, end: nat, closed: bool,
                    a: Config, b: Config)
    requires Sane(s, a) && a.frames != []
  {
    var top := Top(a.frames);
    && start < end <= |s|
    && if !top.value then
         b == Config(end, ReplaceTop(a.frames, Keyed(m, top, s[start..end])), a.g, a.keys + {node})
       else
         var x := Item(Top(a.g.ids), top.mapping, top.key, top.keyJson, tag, start, end, closed);
         b == Config(end, ReplaceTop(a.frames, Gained(m, s, top, x).(value := false)),
                     a.g.(items := a.g.items + [x]), a.keys)
  }

  /** What reading a node does: nothing where none starts after its properties. */
  predicate ReadsScalar(m: Matchers, s: string, closed: bool, a: Config, b: Config)
    requires Sane(s, a) && a.frames != []
  {
    var (start, tag) := NodeStart(m, s, a.i);
    if start == |s| || EndsNode(s, start) then b == a.(i := start)
    else ReadsAt(m, s, a.i, start, tag, b.i, closed, a, b)
  }

  lemma ScalarKeeps(m: Matchers, s: string, closed: bool, a: Config, b: Config)
    requires Sane(s, a) && a.frames != [] && ReadsScalar(m, s, closed, a, b)
    ensures Sane(s, b) && |b.frames| == |a.frames| && (b.keys == a.keys || b.keys == a.keys + {a.i})
    ensures a.i < |s| && !EndsNode(s, a.i) ==> b.i > a.i
  {
    hide NodeStart, Gained, Keyed;
  }

  /** A collection as a key names no credential. */
  function NodeIn(frames: seq<Frame>): seq<Frame> {
    if frames == [] || Top(frames).value then frames else ReplaceTop(frames, Top(frames).(key := "", keyJson := false))
  }

  /** The frames once the innermost is closed: its collection was the value of the entry around it. */
  function Popped(frames: seq<Frame>): seq<Frame>
    requires frames != []
  {
    var rest := frames[..|frames| - 1];
    if rest == [] then [] else ReplaceTop(rest, Top(rest).(value := false))
  }

  lemma NoSpaceBefore(s: string, i: nat)
    requires i < |s| && OpensCollection(s, i)
    ensures SpaceEnd(s, i) == i
  {
  }

  // ---- A reading, step by step ----------------------------------------------

  /** What a byte that opens or closes nothing does. */
  predicate Reads(m: Matchers, s: string, a: Config, b: Config)
    requires Sane(s, a) && a.i < |s| && a.frames != []
  {
    var c, top := s[a.i], Top(a.frames);
    if c == ',' then
      b == a.(i := a.i + 1, frames := ReplaceTop(a.frames, top.(key := "", keyJson := false, value := false)))
    else if c == ':' then b == a.(i := a.i + 1, frames := ReplaceTop(a.frames, top.(value := true)))
    else if c == '?' && a.i + 1 < |s| && Blank(s[a.i + 1]) then b == a.(i := a.i + 1)
    else ReadsScalar(m, s, true, a, b) || ReadsScalar(m, s, false, a, b)
  }

  /** An opening bracket, the right closing one, punctuation or a scalar. */
  predicate TurnAt(m: Matchers, s: string, a: Config, b: Config)
    requires Sane(s, a) && a.i < |s|
  {
    if OpensCollection(s, a.i) then
      b == Config(a.i + 1, NodeIn(a.frames) + [Frame("", [], s[a.i] == '{', false, false, false)], Opened(a.g), a.keys)
    else
      a.frames != [] &&
      if s[a.i] == '}' || s[a.i] == ']' then
        && Top(a.frames).mapping == (s[a.i] == '}')
        && b == Config(a.i + 1, Popped(a.frames), Closed(a.g, Top(a.frames).named), a.keys)
      else Reads(m, s, a, b)
  }

  /** One turn of the parser, after any space. */
  predicate Turn(m: Matchers, s: string, a: Config, b: Config) {
    Sane(s, a) &&
    var at := SpaceEnd(s, a.i);
    at < |s| && TurnAt(m, s, a.(i := at), b)
  }

  lemma ReadsKeeps(m: Matchers, s: string, a: Config, b: Config)
    requires Sane(s, a) && a.i < |s| && a.frames != [] && Reads(m, s, a, b)
    requires !OpensCollection(s, a.i) && s[a.i] != '}' && s[a.i] != ']'
    ensures b.i > a.i && |b.frames| == |a.frames| && (b.keys == a.keys || b.keys == a.keys + {a.i})
  {
    hide ReadsScalar, PlaceholderAt;
    if ReadsScalar(m, s, true, a, b) {
      ScalarKeeps(m, s, true, a, b);
    }
    if ReadsScalar(m, s, false, a, b) {
      ScalarKeeps(m, s, false, a, b);
    }
  }

  /** A turn moves on, and the first one opens a frame. */
  lemma TurnKeeps(m: Matchers, s: string, a: Config, b: Config)
    requires Turn(m, s, a, b)
    ensures b.i > a.i && (a.frames == [] ==> b.frames != [])
    ensures a.keys <= b.keys && forall k <- b.keys :: k in a.keys || a.i <= k < b.i
  {
    hide Reads, PlaceholderAt, Opened, Closed;
    var at := a.(i := SpaceEnd(s, a.i));
    if !OpensCollection(s, at.i) && s[at.i] != '}' && s[at.i] != ']' {
      ReadsKeeps(m, s, at, b);
    }
  }

  datatype Run = Start(last: Config) | Then(front: Run, last: Config)

  predicate IsRun(m: Matchers, s: string, at: nat, keys: set<nat>, run: Run) {
    match run
    case Start(c) => c == Config(at, [], Reading([], [], {}, 0), keys)
    case Then(front, c) => IsRun(m, s, at, keys, front) && Turn(m, s, front.last, c)
  }

  /** Reading stops at end: the collection is closed, the text is over, or the closing bracket is the wrong one. */
  predicate StopsAt(s: string, c: Config, end: nat) {
    Sane(s, c) &&
    if c.frames == [] then end == c.i
    else
      && end == SpaceEnd(s, c.i)
      && (end < |s| ==> (s[end] == '}' || s[end] == ']') && Top(c.frames).mapping != (s[end] == '}'))
  }

  class Parser {
    const m: Matchers
    const s: string
    var i: nat
    var frames: seq<Frame>
    var spans: seq<Span>
    var keys: set<nat>
    ghost const from: nat
    ghost var g: Reading

    ghost predicate Valid()
      reads this
    {
      && from <= i <= |s| && from < |s| && OpensCollection(s, from)
      && Agrees(m, s, g, frames, spans)
      && InText(s, g.items, from, i)
    }

    ghost function Now(): Config
      reads this
    {
      Config(i, frames, g, keys)
    }

    constructor (m: Matchers, s: string, at: nat, keys: set<nat>)
      requires at < |s| && OpensCollection(s, at)
      ensures Valid() && this.m == m && this.s == s && i == at && from == at && this.keys == keys
      ensures frames == [] && spans == [] && g == Reading([], [], {}, 0)
    {
      this.m, this.s, i, this.keys := m, s, at, keys;
      frames, spans, from, g := [], [], at, Reading([], [], {}, 0);
    }

    /** skipSpace: blanks, line breaks and comments. It never looks before the text. */
    method SkipSpace()
      requires from <= i <= |s| && from < |s| && (i == from ==> s[i] != '#')
      modifies this`i
      ensures i == SpaceEnd(s, old(i))
    {
      while i < |s|
        invariant old(i) <= i <= |s|
        invariant i == from ==> s[i] != '#'
        invariant SpaceEnd(s, old(i)) == SpaceEnd(s, i)
      {
        var c := s[i];
        if Blank(c) {
          i := i + 1;
        } else if c == '#' && Blank(s[i - 1]) {
          var nl := RunLength(s, i, "\n");
          i := i + nl;
        } else {
          return;
        }
      }
    }

    /** properties: anchors and tags before a node, with the comments between them. */
    method ReadProperties() returns (tag: bool)
      requires from < i <= |s|
      modifies this`i
      ensures (i, tag) == NodeStart(m, s, old(i))
    {
      hide Properties, SpaceEnd, NodeStart;
      tag := false;
      while true
        invariant old(i) <= i <= |s|
        invariant NodeStart(m, s, old(i)) == (NodeStart(m, s, i).0, tag || NodeStart(m, s, i).1)
        decreases |s| - i
      {
        var n := Properties(s, i);
        NodeStartStep(m, s, i);
        if n == 0 {
          return;
        }
        tag := tag || m.hasTag(s[i..i + n]);
        i := i + n;
        SkipSpace();
      }
    }

    /** entryNode: a collection as a key names no credential. */
    method EntryNode()
      requires Valid()
      modifies this`frames
      ensures Valid()
      ensures frames == NodeIn(old(frames))
    {
      if |frames| > 0 {
        var top := Top(frames);
        if !top.value {
          SetTop(top.(key := "", keyJson := false));
        }
      }
    }

    method SetTop(f: Frame)
      requires Valid() && frames != []
      requires f.values == Top(frames).values && f.named == Top(frames).named
      modifies this`frames
      ensures Valid() && frames == ReplaceTop(old(frames), f)
    {
      RekeyAgrees(m, s, g, frames, spans, f);
      frames := ReplaceTop(frames, f);
    }

    /** scalar: the scalar at i, after its properties, as the entry's key or its value. */
    method Scalar() returns (ghost closed: bool)
      requires Valid() && frames != [] && from < i < |s| && !EndsNode(s, i)
      modifies this`i, this`frames, this`spans, this`keys, this`g
      ensures Valid() && Sane(s, old(Now())) && ReadsScalar(m, s, closed, old(Now()), Now())
    {
      NowIsSane();
      hide Agrees, InText, OpensCollection, NodeStart, ReadsAt, PlaceholderAt;
      closed := false;
      var node := i;
      var tag := ReadProperties();
      InTextWider(s, g.items, from, old(i), i);
      if i >= |s| || EndsNode(s, i) {
        return;
      }
      closed := ScalarAt(node, tag);
    }

    /** The rest of scalar, once the properties before it are read. */
    method ScalarAt(node: nat, tag: bool) returns (ghost closed: bool)
      requires Valid() && frames != [] && i < |s|
      modifies this`i, this`frames, this`spans, this`keys, this`g
      ensures Valid() && Sane(s, old(Now()))
      ensures ReadsAt(m, s, node, old(i), tag, i, closed, old(Now()), Now())
    {
      NowIsSane();
      hide Valid, Agrees, InText, OpensCollection, Gained, Keyed, ClosesAt, EndsPlain, PlainStart,
           PlaceholderAt, ReplaceTop, Sane;
      var top := Top(frames);
      var start := i;
      var end, ends, _ := ScalarEnd(s, start, !top.value);
      closed := ends;
      Advance(end);
      if !top.value {
        ReadKey(top, node, s[start..end]);
      } else {
        ReadValue(top, start, ends, tag);
      }
    }

    method Advance(end: nat)
      requires Valid() && i <= end <= |s|
      modifies this`i
      ensures Valid() && Now() == old(Now()).(i := end) && InText(s, g.items, from, old(i))
    {
      hide Agrees, OpensCollection;
      InTextWider(s, g.items, from, i, end);
      i := end;
    }

    /** The rest of scalar, for a key. */
    method ReadKey(top: Frame, node: nat, raw: string)
      requires Valid() && frames != [] && top == Top(frames) && raw != ""
      modifies this`frames, this`keys
      ensures Valid()
      ensures Now() == old(Now()).(keys := old(keys) + {node}, frames := ReplaceTop(old(frames), Keyed(m, top, raw)))
    {
      hide Agrees, InText, OpensCollection;
      keys := keys + {node};
      if !m.direct(top.key) {
        var f := top.(key := m.yamlScalar(raw), keyJson := raw[0] == '"' && m.validJson(raw));
        RekeyAgrees(m, s, g, frames, spans, f);
        frames := ReplaceTop(frames, f);
      }
    }

    /** The rest of scalar, for a value. */
    method ReadValue(top: Frame, start: nat, closed: bool, tag: bool)
      requires Valid() && frames != [] && top == Top(frames)
      requires start < i && InText(s, g.items, from, start) && (closed ==> start + 2 <= i)
      modifies this`frames, this`spans, this`g
      ensures Valid() && old(g).ids != []
      ensures var x := Item(Top(old(g).ids), top.mapping, top.key, top.keyJson, tag, start, i, closed);
              Now() == old(Now()).(frames := ReplaceTop(old(frames), Gained(m, s, top, x).(value := false)),
                                   g := old(g).(items := old(g).items + [x]))
    {
      NowIsSane();
      hide Agrees, InText, OpensCollection, Gained;
      RecordValue(top, start, closed, tag);
    }

    method RecordValue(top: Frame, start: nat, closed: bool, tag: bool)
      requires Agrees(m, s, g, frames, spans) && frames != [] && g.ids != [] && top == Top(frames)
      requires start < i <= |s| && InText(s, g.items, from, start) && (closed ==> start + 2 <= i)
      modifies this`frames, this`spans, this`g
      ensures Agrees(m, s, g, frames, spans) && InText(s, g.items, from, i)
      ensures var x := Item(Top(old(g).ids), top.mapping, top.key, top.keyJson, tag, start, i, closed);
              && g == old(g).(items := old(g).items + [x])
              && frames == ReplaceTop(old(frames), Gained(m, s, top, x).(value := false))
    {
      hide Agrees, InText, Direct, Gained, SpanOf, Top, ReplaceTop;
      ghost var x := Item(Top(g.ids), top.mapping, top.key, top.keyJson, tag, start, i, closed);
      var f, more := Decide(m, s, top, start, i, closed, tag, x);
      ValueAgrees(m, s, g, frames, spans, x, f, more);
      InTextSnoc(s, g.items, from, start, x);
      g := g.(items := g.items + [x]);
      frames := ReplaceTop(frames, f.(value := false));
      spans := spans + more;
    }

    /** punctuation: a ',', a ':', an explicit key indicator, or a scalar. */
    method Punctuation(c: char)
      requires Valid() && frames != [] && from < i < |s| && c == s[i]
      requires c != '}' && c != ']' && (c == '{' || c == '[' ==> PlaceholderAt(s, i) > 0)
      modifies this`i, this`frames, this`spans, this`keys, this`g
      ensures Valid() && Sane(s, old(Now())) && Reads(m, s, old(Now()), Now())
    {
      NowIsSane();
      assert c != ',' && c != ':' ==> !EndsNode(s, i);
      hide Valid, Sane, Agrees, InText, OpensCollection, EndsNode, PlaceholderAt, ReadsScalar, ReplaceTop, Top;
      if c == ',' || c == ':' {
        Separator(c);
      } else if c == '?' && i + 1 < |s| && Blank(s[i + 1]) {
        Step();
      } else {
        ghost var closed := Scalar();
      }
    }

    /** A ',' ends the entry; a ':' ends its key. */
    method Separator(c: char)
      requires Valid() && frames != [] && i < |s| && c == s[i] && (c == ',' || c == ':')
      modifies this`i, this`frames
      ensures Valid() && Sane(s, old(Now())) && Reads(m, s, old(Now()), Now())
    {
      NowIsSane();
      var top := Top(frames);
      hide Valid, Sane, Agrees, InText, ReplaceTop, Top;
      if c == ',' {
        Separate(top.(key := "", keyJson := false, value := false));
      } else {
        Separate(top.(value := true));
      }
    }

    /** Past a separator, which leaves the top frame as f. */
    method Separate(f: Frame)
      requires Valid() && frames != [] && i < |s|
      requires f.values == Top(frames).values && f.named == Top(frames).named
      modifies this`i, this`frames
      ensures Valid() && Now() == old(Now()).(i := old(i) + 1, frames := ReplaceTop(old(frames), f))
      ensures |frames| == |old(frames)|
    {
      hide Agrees, InText, OpensCollection;
      SetTop(f);
      Step();
    }

    method Step()
      requires Valid() && i < |s|
      modifies this`i
      ensures Valid() && i == old(i) + 1
    {
      hide Agrees, OpensCollection;
      InTextWider(s, g.items, from, i, i + 1);
      i := i + 1;
    }

    /** close: end the innermost collection. */
    method Close()
      requires Valid() && frames != []
      modifies this`frames, this`spans, this`g
      ensures Valid() && g.items == old(g).items
      ensures spans == old(spans) + if Top(old(frames)).named then Top(old(frames)).values else []
      ensures frames == Popped(old(frames)) && |old(frames)| == |old(g).ids|
      ensures g == Closed(old(g), Top(old(frames)).named)
    {
      hide FrameOk, IdsOk, Decided, InText, PlaceholderAt, OpensCollection;
      var top := Top(frames);
      CloseAgrees(m, s, g, frames, spans);
      g := Closed(g, top.named);
      if top.named {
        spans := spans + top.values;
      }
      frames := frames[..|frames| - 1];
      if |frames| > 0 {
        SetTop(Top(frames).(value := false));
      }
    }

    /** closeAll: end every open collection; the offset reading stopped at. */
    method CloseAll() returns (end: nat)
      requires Valid()
      modifies this`frames, this`spans, this`g
      ensures Valid() && frames == [] && g.items == old(g).items && end == i
    {
      while |frames| > 0
        invariant Valid() && g.items == old(g).items
        decreases |frames|
      {
        Close();
      }
      return i;
    }

    /**
      parse: the offset after the collection. It is past the start; the spans lie in what was read
      and do not overlap; they are exactly those of the values to be replaced; and every key
      recorded starts in what was read.
     */
    method Parse() returns (end: nat, ghost run: Run)
      requires Valid() && i == from && frames == [] && spans == [] && g == Reading([], [], {}, 0)
      modifies this
      ensures from < end <= |s| && end == i && frames == []
      ensures IsRun(m, s, from, old(keys), run) && StopsAt(s, run.last, end)
      ensures g.items == run.last.g.items && keys == run.last.keys
      ensures multiset(spans) == multiset(ReplacedSpans(m, s, g.items, g.items))
      ensures PairwiseApart(spans) && Within(spans, from, end)
      ensures InText(s, g.items, from, end)
      ensures old(keys) <= keys && forall k <- keys :: k in old(keys) || from <= k < end
    {
      hide Agrees, InText, PlaceholderAt, SpaceEnd, Turn;
      run := Start(Now());
      while true
        invariant Valid() && (frames == [] <==> i == from)
        invariant IsRun(m, s, from, old(keys), run) && run.last == Now()
        invariant old(keys) <= keys && forall k <- keys :: k in old(keys) || from <= k < i
        decreases |s| - i
      {
        var more := TakeTurn();
        if !more {
          end := CloseAll();
          Settle();
          return;
        }
        TurnKeeps(m, s, run.last, Now());
        run := Then(run, Now());
        if |frames| == 0 {
          Settle();
          NowIsSane();
          return i, run;
        }
      }
    }

    /** One turn of parse; none is taken at the end of the text or before the wrong bracket. */
    method TakeTurn() returns (more: bool)
      requires Valid() && (frames == [] <==> i == from)
      modifies this
      ensures Valid()
      ensures more ==> Turn(m, s, old(Now()), Now())
      ensures !more ==> StopsAt(s, old(Now()), i) && i >= old(i)
      ensures !more ==> frames == old(frames) != [] && g == old(g) && keys == old(keys)
    {
      NowIsSane();
      hide Agrees, InText, PlaceholderAt, SpaceEnd, TurnAt;
      ghost var before := Now();
      NoSpaceBefore(s, from);
      SkipSpace();
      InTextWider(s, g.items, from, before.i, i);
      if i >= |s| {
        return false;
      }
      if (s[i] == '}' || s[i] == ']') && Top(frames).mapping != (s[i] == '}') {
        return false;
      }
      OneTurn();
      return true;
    }

    /** The rest of a turn that is taken. */
    method OneTurn()
      requires Valid() && i < |s| && (frames == [] <==> i == from)
      requires s[i] == '}' || s[i] == ']' ==> frames != [] && Top(frames).mapping == (s[i] == '}')
      modifies this
      ensures Valid() && Sane(s, old(Now())) && TurnAt(m, s, old(Now()), Now())
    {
      NowIsSane();
      var c := s[i];
      assert frames == [] ==> OpensCollection(s, i);
      assert frames != [] ==> from < i;
      hide Valid, Agrees, InText, Reads, NodeIn, Popped, Opened, Closed, Top, PlaceholderAt;
      if (c == '{' || c == '[') && PlaceholderAt(s, i) == 0 {
        TakeOpening(c == '{');
      } else if c == '}' || c == ']' {
        TakeClosing();
      } else {
        Punctuation(c);
      }
    }

    /** The node at i is a collection: a frame of its own. */
    method TakeOpening(mapping: bool)
      requires Valid() && i < |s|
      modifies this`frames, this`g, this`i
      ensures Valid()
      ensures Now() == Config(old(i) + 1, NodeIn(old(frames)) + [Frame("", [], mapping, false, false, false)],
                              Opened(old(g)), old(keys))
    {
      hide Agrees, InText, OpensCollection, NodeIn;
      EntryNode();
      OpenAgrees(m, s, g, frames, spans, mapping);
      g := Opened(g);
      frames := frames + [Frame("", [], mapping, false, false, false)];
      Step();
    }

    /** The bracket at i closes the innermost collection. */
    method TakeClosing()
      requires Valid() && i < |s| && frames != []
      modifies this`frames, this`g, this`i, this`spans
      ensures Valid() && old(g).ids != []
      ensures Now() == Config(old(i) + 1, Popped(old(frames)), Closed(old(g), Top(old(frames)).named), old(keys))
    {
      NowIsSane();
      hide Agrees, InText, OpensCollection, Popped, Closed, Top;
      Close();
      Step();
    }

    lemma NowIsSane()
      requires Valid()
      ensures Sane(s, Now())
    {
    }

    /** With every frame closed, the spans are those of the values to be replaced. */
    lemma Settle()
      requires Valid() && frames == []
      ensures multiset(spans) == multiset(ReplacedSpans(m, s, g.items, g.items))
      ensures PairwiseApart(spans) && Within(spans, from, i)
    {
      AllDecided(m, s, g.items, g);
      var r := ReplacedSpans(m, s, g.items, g.items);
      ReplacedInOrder(m, s, g.items, g.items, from, i);
      hide ReplacedSpans, Decided;
      PermutedApart(spans, r);
      assert forall sp :: sp in spans ==> sp in multiset(r);
    }
  }

  // ---- The collections of a text --------------------------------------------

  /** A line of the text, without its line break or a '\r' before it. */
  datatype Line = Line(start: nat, end: nat)

  predicate LineOk(s: string, l: Line) {
    l.start <= l.end <= |s| && (l.end < |s| ==> s[l.end] in "\r\n")
  }

  /** The line break at or after i, or the end of the text. */
  function LineBreak(s: string, i: nat): (b: nat)
    requires i <= |s|
    ensures i <= b <= |s|
  {
    i + RunLength(s, i, "\n")
  }

  function TrimReturn(s: string, start: nat, end: nat): (e: nat)
    requires start <= end <= |s|
    ensures start <= e <= end && (e < end ==> s[e] == '\r')
  {
    if start < end && s[end - 1] == '\r' then end - 1 else end
  }

  predicate IsLine(s: string, l: Line) {
    l.start <= |s| && l.end == TrimReturn(s, l.start, LineBreak(s, l.start))
  }

  /** The lines of the text: the first starts it, each next one starts after a break, the last ends it. */
  predicate LinesOf(s: string, lines: seq<Line>) {
    && lines != [] && lines[0].start == 0
    && (forall k :: 0 <= k < |lines| ==> IsLine(s, lines[k]))
    && (forall k :: 0 < k < |lines| ==> lines[k].start == LineBreak(s, lines[k - 1].start) + 1)
    && LineBreak(s, lines[|lines| - 1].start) == |s|
  }

  method SplitLines(s: string) returns (lines: seq<Line>)
    ensures LinesOf(s, lines)
  {
    hide TrimReturn, LineBreak;
    lines := [];
    var start := 0;
    while true
      invariant start <= |s|
      invariant forall k :: 0 <= k < |lines| ==> IsLine(s, lines[k])
      invariant forall k :: 0 < k < |lines| ==> lines[k].start == LineBreak(s, lines[k - 1].start) + 1
      invariant lines == [] ==> start == 0
      invariant lines != [] ==> lines[0].start == 0 && start == LineBreak(s, lines[|lines| - 1].start) + 1
      decreases |s| - start
    {
      var nl := LineBreak(s, start);
      lines := lines + [Line(start, TrimReturn(s, start, nl))];
      if nl == |s| {
        return;
      }
      start := nl + 1;
    }
  }

  lemma LineIsOk(s: string, l: Line)
    requires IsLine(s, l)
    ensures LineOk(s, l)
  {
    RunStops(s, l.start, "\n");
  }

  /** Every byte is in a line or in the break that ends it, and no line holds a break. */
  lemma {:induction false} LinesCover(s: string, lines: seq<Line>, p: nat) returns (k: nat)
    requires LinesOf(s, lines) && p < |s|
    ensures k < |lines| && lines[k].start <= p <= LineBreak(s, lines[k].start)
    ensures forall q :: lines[k].start <= q < lines[k].end ==> s[q] != '\n'
  {
    k := |lines| - 1;
    while lines[k].start > p
      invariant k < |lines| && p <= LineBreak(s, lines[k].start)
      decreases k
    {
      k := k - 1;
    }
    RunStops(s, lines[k].start, "\n");
  }

  lemma {:induction false} RunStops(s: string, i: nat, stop: string)
    requires i <= |s|
    ensures var n := i + RunLength(s, i, stop);
            (n < |s| ==> s[n] in stop) && forall k :: i <= k < n ==> s[k] !in stop
    decreases |s| - i
  {
    if i < |s| && s[i] !in stop {
      RunStops(s, i + 1, stop);
    }
  }

  lemma {:induction false} LabelOfPrefix(t: string, k: nat)
    requires k <= |t|
    ensures LabelLength(t[..k]) == if LabelLength(t) <= k then LabelLength(t) else k
    ensures forall j :: 0 <= j < LabelLength(t) ==> LabelByte(t[j])
  {
    if k > 0 && LabelByte(t[0]) {
      LabelOfPrefix(t[1..], k - 1);
      assert t[..k][1..] == t[1..][..k - 1];
      assert forall j :: 0 < j < LabelLength(t) ==> t[j] == t[1..][j - 1];
    } else if t != [] && LabelByte(t[0]) {
      LabelOfPrefix(t[1..], 0);
      assert forall j :: 0 < j < LabelLength(t) ==> t[j] == t[1..][j - 1];
    }
  }

  /** The parts of a placeholder at the start of t. */
  lemma PlaceholderParts(t: string)
    requires PlaceholderAt(t, 0) > 0
    ensures var size := LabelLength(t[|PLACEHOLDER_OPEN|..]);
            && PLACEHOLDER_OPEN <= t && size > 0
            && PlaceholderAt(t, 0) == |PLACEHOLDER_OPEN| + size + 1 && t[|PLACEHOLDER_OPEN| + size] == ']'
            && forall j :: 0 <= j < PlaceholderAt(t, 0) ==> t[j] !in "\r\n"
  {
    assert t[0..] == t;
    var rest := t[|PLACEHOLDER_OPEN|..];
    LabelOfPrefix(rest, 0);
    forall j | 0 <= j < PlaceholderAt(t, 0)
      ensures t[j] !in "\r\n"
    {
      if j < |PLACEHOLDER_OPEN| {
        assert t[j] == PLACEHOLDER_OPEN[j];
      } else if j < PlaceholderAt(t, 0) - 1 {
        assert t[j] == rest[j - |PLACEHOLDER_OPEN|];
      }
    }
  }

  lemma PlaceholderKept(t: string, k: nat)
    requires k <= |t| && 0 < PlaceholderAt(t, 0) <= k
    ensures PlaceholderAt(t[..k], 0) > 0
  {
    PlaceholderParts(t);
    var n := |PLACEHOLDER_OPEN|;
    assert t[..k][n..] == t[n..][..k - n];
    LabelOfPrefix(t[n..], k - n);
    assert t[..k][0..] == t[..k];
    assert t[0..] == t;
  }

  /** A placeholder in the text is one in the line too, as it holds no line break. */
  lemma PlaceholderInLine(s: string, l: Line, at: nat)
    requires LineOk(s, l) && l.start + at <= l.end
    requires PlaceholderAt(s, l.start + at) > 0
    ensures PlaceholderAt(s[l.start..l.end], at) > 0
  {
    var t := s[l.start + at..];
    var k := l.end - l.start - at;
    assert t[0..] == t;
    assert PlaceholderAt(t, 0) == PlaceholderAt(s, l.start + at);
    PlaceholderParts(t);
    assert k < |t| ==> t[k] == s[l.end];
    PlaceholderKept(t, k);
    var line := s[l.start..l.end];
    SliceOfSlice(s, l.start, l.end, at, |line|);
    assert line[at..] == line[at..|line|] == s[l.start + at..l.end] == t[..k];
    assert t[..k][0..] == t[..k];
  }

  /** What the patterns before a collection match is at the start of what they are given. */
  ghost predicate Anchored(m: Matchers) {
    forall t: string :: m.flowLead(t) <= |t| && m.flowKey(t) <= |t|
  }

  /** Past what may come before a collection: markers, with keyProps properties, a key, properties. */
  function Lead(m: Matchers, text: string, keyProps: bool): (n: nat)
    requires Anchored(m)
    ensures n <= |text|
  {
    var lead: nat := m.flowLead(text);
    var propped := lead + if keyProps then Properties(text, lead) else 0;
    var keyed := propped + m.flowKey(text[propped..]);
    keyed + Properties(text, keyed)
  }

  /** flowStart: the offset in the line of the collection that opens right after its lead, or -1. */
  method FlowStart(m: Matchers, text: string, keyProps: bool) returns (at: int)
    requires Anchored(m)
    ensures var n := Lead(m, text, keyProps);
            at == if n < |text| && OpensCollection(text, n) then n else -1
  {
    hide Properties, PlaceholderAt;
    var n: nat := m.flowLead(text);
    if keyProps {
      n := n + Properties(text, n);
    }
    n := n + m.flowKey(text[n..]);
    n := n + Properties(text, n);
    if n == |text| || (text[n] != '{' && text[n] != '[') || PlaceholderAt(text, n) > 0 {
      return -1;
    }
    return n;
  }

  ghost function StartOf(m: Matchers, text: string, keyProps: bool): (at: int)
    requires Anchored(m)
    ensures at == -1 || (0 <= at < |text| && OpensCollection(text, at))
  {
    var n := Lead(m, text, keyProps);
    if n < |text| && OpensCollection(text, n) then n else -1
  }

  lemma JoinApart(a: seq<Span>, b: seq<Span>, lo: nat, hi: nat)
    requires PairwiseApart(a) && PairwiseApart(b) && Within(a, 0, lo) && Within(b, lo, hi) && lo <= hi
    ensures PairwiseApart(a + b) && Within(a + b, 0, hi)
  {
    var r := a + b;
    assert forall x :: x in r ==> x in a || x in b;
    forall i, j | 0 <= i < j < |r|
      ensures Apart(r[i], r[j])
    {
      if i < |a| <= j {
        assert a[i] in a && b[j - |a|] in b;
      } else if |a| <= i {
        assert Apart(b[i - |a|], b[j - |a|]);
      }
    }
  }

  /** What one line gives: a collection read at an offset of the text, or nothing. */
  datatype Found = Nothing | Read(at: nat, tagged: bool, run: Run, end: nat, spans: seq<Span>)

  function SpansIn(found: seq<Found>): seq<Span> {
    if found == [] then []
    else
      var f := found[|found| - 1];
      SpansIn(found[..|found| - 1]) + if f.Read? then f.spans else []
  }

  /** The spans of the collections found with properties before a key, or of the others. */
  function SpansOfKind(found: seq<Found>, tagged: bool): seq<Span> {
    if found == [] then []
    else
      var f := found[|found| - 1];
      SpansOfKind(found[..|found| - 1], tagged) + if f.Read? && f.tagged == tagged then f.spans else []
  }

  /** Where the last collection of this kind ended. */
  function EndOf(found: seq<Found>, tagged: bool): nat {
    if found == [] then 0
    else
      var f := found[|found| - 1];
      if f.Read? && f.tagged == tagged then f.end else EndOf(found[..|found| - 1], tagged)
  }

  function KeysOf(found: seq<Found>): set<nat> {
    if found == [] then {}
    else
      var f := found[|found| - 1];
      if f.Read? then f.run.last.keys else KeysOf(found[..|found| - 1])
  }

  /** A collection read from its opening bracket to where the parser stops, with the spans to be replaced in it. */
  ghost predicate ReadBy(m: Matchers, s: string, keys: set<nat>, f: Found)
    requires f.Read?
  {
    && IsRun(m, s, f.at, keys, f.run) && StopsAt(s, f.run.last, f.end)
    && multiset(f.spans) == multiset(ReplacedSpans(m, s, f.run.last.g.items, f.run.last.g.items))
  }

  /**
    What a line gives, after those before it: nothing inside a collection already read; the collection it
    opens; failing that, outside those of its kind, the one it opens after properties.
   */
  ghost predicate LineGives(m: Matchers, s: string, l: Line, before: seq<Found>, f: Found)
    requires Anchored(m) && LineOk(s, l)
  {
    var text := s[l.start..l.end];
    var plain, tagged := StartOf(m, text, false), StartOf(m, text, true);
    if l.start < EndOf(before, false) then f.Nothing?
    else if plain >= 0 then f.Read? && !f.tagged && f.at == l.start + plain && ReadBy(m, s, KeysOf(before), f)
    else if tagged >= 0 && l.start >= EndOf(before, true) then
      f.Read? && f.tagged && f.at == l.start + tagged && ReadBy(m, s, KeysOf(before), f)
    else f.Nothing?
  }

  ghost predicate AllGiven(m: Matchers, s: string, lines: seq<Line>, found: seq<Found>)
    requires Anchored(m) && forall l <- lines :: LineOk(s, l)
  {
    |found| == |lines| && forall k :: 0 <= k < |lines| ==> LineGives(m, s, lines[k], found[..k], found[k])
  }

  /** One collection, opened at offset at of line l. */
  method ReadCollection(m: Matchers, s: string, l: Line, at: nat, keys: set<nat>, ghost tagged: bool)
    returns (spans: seq<Span>, read: set<nat>, end: nat, ghost f: Found)
    requires LineOk(s, l) && l.start + at < l.end && OpensCollection(s[l.start..l.end], at)
    requires forall k <- keys :: k < |s|
    ensures l.start + at < end <= |s|
    ensures PairwiseApart(spans) && Within(spans, l.start + at, end)
    ensures keys <= read && forall k <- read :: k < |s|
    ensures f.Read? && f == Read(l.start + at, tagged, f.run, end, spans)
    ensures ReadBy(m, s, keys, f) && read == f.run.last.keys
  {
    OpensInText(s, l, at);
    hide OpensCollection, PairwiseApart, Within, IsRun, StopsAt, ReplacedSpans;
    var p := new Parser(m, s, l.start + at, keys);
    ghost var run;
    end, run := p.Parse();
    f := Read(l.start + at, tagged, run, end, p.spans);
    return p.spans, p.keys, end, f;
  }

  /** What one line more adds to what was found. */
  lemma FoundSnoc(found: seq<Found>, f: Found)
    ensures var more := found + [f];
            && SpansIn(more) == SpansIn(found) + (if f.Read? then f.spans else [])
            && (forall t :: SpansOfKind(more, t) ==
                              SpansOfKind(found, t) + if f.Read? && f.tagged == t then f.spans else [])
            && (forall t :: EndOf(more, t) == if f.Read? && f.tagged == t then f.end else EndOf(found, t))
            && KeysOf(more) == if f.Read? then f.run.last.keys else KeysOf(found)
  {
    assert (found + [f])[..|found|] == found;
  }

  lemma NothingMore(found: seq<Found>)
    ensures var more := found + [Nothing];
            && SpansIn(more) == SpansIn(found) && KeysOf(more) == KeysOf(found)
            && forall t :: SpansOfKind(more, t) == SpansOfKind(found, t) && EndOf(more, t) == EndOf(found, t)
  {
    FoundSnoc(found, Nothing);
    hide SpansIn, SpansOfKind, EndOf, KeysOf;
    forall t: bool
      ensures SpansOfKind(found + [Nothing], t) == SpansOfKind(found, t)
    {
      assert SpansOfKind(found, t) + [] == SpansOfKind(found, t);
    }
  }

  lemma GivenSnoc(m: Matchers, s: string, lines: seq<Line>, k: nat, found: seq<Found>, f: Found)
    requires Anchored(m) && (forall l <- lines :: LineOk(s, l)) && k < |lines|
    requires AllGiven(m, s, lines[..k], found) && LineGives(m, s, lines[k], found, f)
    ensures AllGiven(m, s, lines[..k + 1], found + [f])
  {
    hide Anchored, LineGives, LineOk;
    var more := found + [f];
    assert forall j :: 0 <= j < k ==> more[..j] == found[..j];
    assert more[..k] == found;
  }

  /**
    flows: line by line, every collection a line opens outside those already read, with the spans to be
    replaced in it and nothing else. Those found the same way never overlap.
   */
  method Flows(m: Matchers, s: string)
    returns (spans: seq<Span>, keys: set<nat>, ghost lines: seq<Line>, ghost found: seq<Found>)
    requires Anchored(m)
    ensures LinesOf(s, lines) && (forall l <- lines :: LineOk(s, l)) && AllGiven(m, s, lines, found)
    ensures spans == SpansIn(found) && keys == KeysOf(found)
    ensures forall t :: PairwiseApart(SpansOfKind(found, t)) && Within(SpansOfKind(found, t), 0, |s|)
    ensures forall k <- keys :: k < |s|
  {
    hide Anchored, OpensCollection, PairwiseApart, Within, LinesOf, IsLine, SpansIn, SpansOfKind, EndOf, KeysOf,
         Lead, ReadBy, LineGives, AllGiven;
    var split := SplitLines(s);
    lines := split;
    LinesAreOk(s, lines);
    spans, keys, found := [], {}, [];
    var next, propped := 0, 0;
    NothingFound(m, s);
    assert split[..0] == [];
    for k := 0 to |split|
      invariant next == EndOf(found, false) <= |s| && propped == EndOf(found, true) <= |s|
      invariant spans == SpansIn(found) && keys == KeysOf(found)
      invariant |found| == k && AllGiven(m, s, lines[..k], found)
      invariant forall t :: PairwiseApart(SpansOfKind(found, t)) && Within(SpansOfKind(found, t), 0, EndOf(found, t))
      invariant forall k <- keys :: k < |s|
    {
      ghost var f: Found;
      spans, keys, next, propped, f := ReadLine(m, s, split[k], spans, keys, next, propped, found);
      GivenSnoc(m, s, lines, k, found, f);
      found := found + [f];
    }
    assert lines[..|lines|] == lines;
    forall t: bool
      ensures Within(SpansOfKind(found, t), 0, |s|)
    {
      Widen(SpansOfKind(found, t), EndOf(found, t), |s|);
    }
  }

  lemma LinesAreOk(s: string, lines: seq<Line>)
    requires LinesOf(s, lines)
    ensures forall l <- lines :: LineOk(s, l)
  {
    hide LineOk, IsLine;
    forall l <- lines
      ensures LineOk(s, l)
    {
      var k :| 0 <= k < |lines| && lines[k] == l;
      LineIsOk(s, lines[k]);
    }
  }

  lemma NothingFound(m: Matchers, s: string)
    requires Anchored(m)
    ensures SpansIn([]) == [] && KeysOf([]) == {} && AllGiven(m, s, [], [])
    ensures forall t :: EndOf([], t) == 0 && PairwiseApart(SpansOfKind([], t)) && Within(SpansOfKind([], t), 0, 0)
  {
  }

  /** One turn of flows, over line l. */
  method ReadLine(m: Matchers, s: string, l: Line, spans: seq<Span>, keys: set<nat>, next: nat, propped: nat,
                  ghost found: seq<Found>)
    returns (spans': seq<Span>, keys': set<nat>, next': nat, propped': nat, ghost f: Found)
    requires Anchored(m) && LineOk(s, l)
    requires next == EndOf(found, false) <= |s| && propped == EndOf(found, true) <= |s|
    requires spans == SpansIn(found) && keys == KeysOf(found)
    requires forall t :: PairwiseApart(SpansOfKind(found, t)) && Within(SpansOfKind(found, t), 0, EndOf(found, t))
    requires forall k <- keys :: k < |s|
    ensures LineGives(m, s, l, found, f)
    ensures var more := found + [f];
            && next' == EndOf(more, false) <= |s| && propped' == EndOf(more, true) <= |s|
            && spans' == SpansIn(more) && keys' == KeysOf(more)
            && forall t :: PairwiseApart(SpansOfKind(more, t)) && Within(SpansOfKind(more, t), 0, EndOf(more, t))
    ensures forall k <- keys' :: k < |s|
  {
    hide Anchored, OpensCollection, PairwiseApart, Within, SpansIn, SpansOfKind, EndOf, KeysOf, Lead, ReadBy;
    spans', keys', next', propped', f := spans, keys, next, propped, Nothing;
    NothingMore(found);
    if l.start < next {
      return;
    }
    var text := s[l.start..l.end];
    var at := FlowStart(m, text, false);
    if at >= 0 {
      var more, end;
      more, keys', end, f := ReadCollection(m, s, l, at, keys, false);
      spans', next' := spans + more, end;
      FoundSnoc(found, f);
      FoundApart(found, f, l.start + at);
      return;
    }
    at := FlowStart(m, text, true);
    if at >= 0 && l.start >= propped {
      var more, end;
      more, keys', end, f := ReadCollection(m, s, l, at, keys, true);
      spans', propped' := spans + more, end;
      FoundSnoc(found, f);
      FoundApart(found, f, l.start + at);
    }
  }

  lemma FoundApart(found: seq<Found>, f: Found, from: nat)
    requires forall t :: PairwiseApart(SpansOfKind(found, t)) && Within(SpansOfKind(found, t), 0, EndOf(found, t))
    requires f.Read? && EndOf(found, f.tagged) <= from <= f.end
    requires PairwiseApart(f.spans) && Within(f.spans, from, f.end)
    ensures var more := found + [f];
            forall t :: PairwiseApart(SpansOfKind(more, t)) && Within(SpansOfKind(more, t), 0, EndOf(more, t))
  {
    FoundSnoc(found, f);
    JoinFrom(SpansOfKind(found, f.tagged), f.spans, EndOf(found, f.tagged), from, f.end);
    hide PairwiseApart, Within, SpansOfKind, EndOf;
    var other := SpansOfKind(found, !f.tagged);
    assert other + [] == other;
  }

  lemma Widen(a: seq<Span>, lo: nat, hi: nat)
    requires Within(a, 0, lo) && lo <= hi
    ensures Within(a, 0, hi)
  {
  }

  lemma JoinFrom(a: seq<Span>, b: seq<Span>, lo: nat, from: nat, hi: nat)
    requires PairwiseApart(a) && PairwiseApart(b) && Within(a, 0, lo) && Within(b, from, hi) && lo <= from <= hi
    ensures PairwiseApart(a + b) && Within(a + b, 0, hi)
  {
    JoinApart(a, b, lo, hi);
  }

  lemma OpensInText(s: string, l: Line, at: nat)
    requires LineOk(s, l) && l.start + at < l.end
    requires OpensCollection(s[l.start..l.end], at)
    ensures OpensCollection(s, l.start + at)
  {
    if PlaceholderAt(s, l.start + at) > 0 {
      PlaceholderInLine(s, l, at);
    }
  }
}
