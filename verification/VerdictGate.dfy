/** The verification panel (internal/agent/verify.go): two passes, each read fail-closed. */
module VerdictGate {
  import opened Wrappers
  import opened JsonKeys
  import Schema

  const CONFIRMED := "confirmed"
  const REFUTED := "refuted"
  const INSUFFICIENT := "insufficient_evidence"

  predicate KnownVerdict(s: string) { s == CONFIRMED || s == REFUTED || s == INSUFFICIENT }

  datatype Entry = Entry(verdict: string, justification: string)

  datatype Outcome = Verified | Refuted | Unverified

  // ---- Finding IDs ----------------------------------------------------------

  function Decimal(n: nat): (s: string)
    ensures s != ""
  {
    var digit := ['0' + (n % 10) as char];
    if n < 10 then digit else Decimal(n / 10) + digit
  }

  predicate Digits(s: string) { forall i :: 0 <= i < |s| ==> '0' <= s[i] <= '9' }

  function Value(s: string): nat
    requires Digits(s)
  {
    if s == "" then 0 else Value(s[..|s| - 1]) * 10 + (s[|s| - 1] - '0') as nat
  }

  lemma {:induction false} DecimalValue(n: nat)
    ensures Digits(Decimal(n)) && Value(Decimal(n)) == n
  {
    if n >= 10 {
      DecimalValue(n / 10);
      assert Decimal(n)[..|Decimal(n)| - 1] == Decimal(n / 10);
    } else {
      assert Decimal(n)[..0] == "";
    }
  }

  function FindingID(i: nat): string { "f" + Decimal(i + 1) }

  /** No two findings share an ID. */
  lemma FindingIDsDiffer(i: nat, j: nat)
    ensures FindingID(i) == FindingID(j) ==> i == j
  {
    DecimalValue(i + 1);
    DecimalValue(j + 1);
    assert FindingID(i)[1..] == Decimal(i + 1) && FindingID(j)[1..] == Decimal(j + 1);
  }

  // ---- Decoding one verdict object ------------------------------------------

  /** encoding/json fills a field from every member whose key folds to its name; the last one stays. */
  function LastField(ms: Members, name: string, sofar: string): string {
    if ms.NoMembers? then sofar
    else LastField(ms.rest, name, if Lower(ms.key) == name && ms.value.Text? then ms.value.s else sofar)
  }

  /** The field as its first member gives it. */
  function FirstField(ms: Members, name: string): string {
    if ms.NoMembers? then ""
    else if Lower(ms.key) == name then (if ms.value.Text? then ms.value.s else "")
    else FirstField(ms.rest, name)
  }

  /** A member that folds to a field's name and holds neither a string nor null is an error. */
  predicate FieldError(ms: Members) {
    ms.Member? &&
    ((Lower(ms.key) in {"verdict", "justification"} && !ms.value.Text? && !ms.value.Null?) || FieldError(ms.rest))
  }

  function DecodeEntry(v: Json): Option<Entry> {
    match v
    case Null => Some(Entry("", ""))
    case Object(ms) =>
      if FieldError(ms) then None
      else Some(Entry(LastField(ms, "verdict", ""), LastField(ms, "justification", "")))
    case _ => None
  }

  lemma {:induction false} LastFieldOf(ms: Members, name: string, sofar: string)
    requires forall k <- Keys(ms) :: Lower(k) != name
    ensures LastField(ms, name, sofar) == sofar && FirstField(ms, name) == ""
  {
    if ms.Member? {
      LastFieldOf(ms.rest, name, sofar);
    }
  }

  /** Past the duplicate check, the last member wins exactly when the first does. */
  lemma {:induction false} LastWinsIsFirstWins(ms: Members, name: string)
    requires DistinctFolded(Keys(ms))
    ensures LastField(ms, name, "") == FirstField(ms, name)
  {
    hide Lower;
    if ms.Member? {
      DistinctCons(ms.key, Keys(ms.rest));
      if Lower(ms.key) == name {
        LastFieldOf(ms.rest, name, if ms.value.Text? then ms.value.s else "");
      } else {
        LastWinsIsFirstWins(ms.rest, name);
      }
    }
  }

  function MemberSet(ms: Members): set<(string, Json)> {
    if ms.NoMembers? then {} else {(ms.key, ms.value)} + MemberSet(ms.rest)
  }

  lemma {:induction false} KeysOfMembers(ms: Members)
    ensures forall k :: k in Keys(ms) <==> exists m <- MemberSet(ms) :: m.0 == k
  {
    if ms.Member? {
      KeysOfMembers(ms.rest);
      forall k
        ensures k in Keys(ms) <==> exists m <- MemberSet(ms) :: m.0 == k
      {
        if k == ms.key {
          assert (ms.key, ms.value) in MemberSet(ms);
        }
        if k in Keys(ms.rest) {
          var m :| m in MemberSet(ms.rest) && m.0 == k;
          assert m in MemberSet(ms);
        }
      }
    }
  }

  /** Past the duplicate check, a field is what the one member that folds to its name says. */
  lemma {:induction false} FieldFromMember(ms: Members, name: string)
    requires DistinctFolded(Keys(ms))
    ensures (forall m <- MemberSet(ms) :: Lower(m.0) != name) ==> FirstField(ms, name) == ""
    ensures forall m <- MemberSet(ms) :: Lower(m.0) == name ==> FirstField(ms, name) == if m.1.Text? then m.1.s else ""
  {
    hide Lower;
    if ms.Member? {
      DistinctCons(ms.key, Keys(ms.rest));
      FieldFromMember(ms.rest, name);
      KeysOfMembers(ms.rest);
      assert (ms.key, ms.value) in MemberSet(ms);
    }
  }

  lemma {:induction false} ErrorFromMember(ms: Members)
    ensures FieldError(ms) <==>
            exists m <- MemberSet(ms) :: Lower(m.0) in {"verdict", "justification"} && !m.1.Text? && !m.1.Null?
  {
    hide Lower;
    if ms.Member? {
      ErrorFromMember(ms.rest);
      assert (ms.key, ms.value) in MemberSet(ms);
    }
  }

  /** The order of an object's members does not change what is decoded from it. */
  lemma OrderIndependent(a: Members, b: Members)
    requires DistinctFolded(Keys(a)) && DistinctFolded(Keys(b)) && MemberSet(a) == MemberSet(b)
    ensures DecodeEntry(Object(a)) == DecodeEntry(Object(b))
  {
    hide Lower, DistinctFolded, FieldError, LastField, FirstField;
    ErrorFromMember(a);
    ErrorFromMember(b);
    SameField(a, b, "verdict");
    SameField(a, b, "justification");
  }

  lemma SameField(a: Members, b: Members, name: string)
    requires DistinctFolded(Keys(a)) && DistinctFolded(Keys(b)) && MemberSet(a) == MemberSet(b)
    ensures LastField(a, name, "") == LastField(b, name, "")
  {
    hide Lower, DistinctFolded, LastField, FirstField;
    LastWinsIsFirstWins(a, name);
    LastWinsIsFirstWins(b, name);
    FieldFromMember(a, name);
    FieldFromMember(b, name);
    if m :| m in MemberSet(a) && Lower(m.0) == name {
      assert m in MemberSet(b);
    } else {
      assert forall m <- MemberSet(b) :: Lower(m.0) != name;
    }
  }

  // ---- Decoding the whole response ------------------------------------------

  /**
    A response, fence and white space removed, as the decoder reads it: a stream of whole
    values, or tokens that stop inside one or at an error (broken); rest would complete them.
   */
  datatype Document = Whole(values: Items) | Part(toks: seq<Token>, broken: bool, values: Items, rest: seq<Token>)

  predicate Readable(doc: Document) { doc.Part? ==> doc.toks + doc.rest == ItemTokens(doc.values) }

  function DecodeMembers(ms: Members, sofar: map<string, Entry>): Option<map<string, Entry>> {
    if ms.NoMembers? then Some(sofar)
    else if ms.key in sofar || DecodeEntry(ms.value).None? then None
    else DecodeMembers(ms.rest, sofar[ms.key := DecodeEntry(ms.value).value])
  }

  /** decodeVerdictObject: exactly one object, each key once, every value an entry. */
  method DecodeVerdictObject(doc: Document) returns (m: Option<map<string, Entry>>)
    ensures m == if doc.Whole? && doc.values.Item? && doc.values.head.Object? && doc.values.tail.NoItems?
                 then DecodeMembers(doc.values.head.members, map[]) else None
  {
    hide DecodeEntry;
    if doc.Part? || doc.values.NoItems? || !doc.values.head.Object? {
      return None;
    }
    var found: map<string, Entry> := map[];
    var ms := doc.values.head.members;
    while ms.Member?
      invariant DecodeMembers(doc.values.head.members, map[]) == DecodeMembers(ms, found)
      decreases ms
    {
      if ms.key in found {
        return None;
      }
      var v := DecodeEntry(ms.value);
      if v.None? {
        return None;
      }
      found := found[ms.key := v.value];
      ms := ms.rest;
    }
    if doc.values.tail.Item? {
      return None;
    }
    return Some(found);
  }

  /** The value of the member with exactly this key. */
  function Lookup(ms: Members, id: string): Option<Json> {
    if ms.NoMembers? then None else if ms.key == id then Some(ms.value) else Lookup(ms.rest, id)
  }

  predicate AllEntries(ms: Members) { ms.NoMembers? || (DecodeEntry(ms.value).Some? && AllEntries(ms.rest)) }

  predicate DistinctFrom(ms: Members, sofar: set<string>) {
    ms.NoMembers? || (ms.key !in sofar && DistinctFrom(ms.rest, sofar + {ms.key}))
  }

  lemma {:induction false} DecodedMembers(ms: Members, sofar: map<string, Entry>)
    requires DistinctFrom(ms, sofar.Keys)
    ensures DecodeMembers(ms, sofar).Some? <==> AllEntries(ms)
    ensures AllEntries(ms) ==>
              var m := DecodeMembers(ms, sofar).value;
              && (forall id :: id in m <==> id in sofar || Lookup(ms, id).Some?)
              && (forall id :: id in m && id !in sofar ==>
                    DecodeEntry(Lookup(ms, id).value).Some? && m[id] == DecodeEntry(Lookup(ms, id).value).value)
              && (forall id :: id in sofar ==> m[id] == sofar[id])
  {
    hide DecodeEntry;
    if ms.Member? && DecodeEntry(ms.value).Some? {
      var next := sofar[ms.key := DecodeEntry(ms.value).value];
      assert next.Keys == sofar.Keys + {ms.key};
      DecodedMembers(ms.rest, next);
    }
  }

  lemma {:induction false} FoldedDistinct(ms: Members, sofar: set<string>)
    requires DistinctFolded(Keys(ms)) && forall k <- Keys(ms) :: k !in sofar
    ensures DistinctFrom(ms, sofar)
  {
    hide Lower;
    if ms.Member? {
      DistinctCons(ms.key, Keys(ms.rest));
      FoldedDistinct(ms.rest, sofar + {ms.key});
    }
  }

  lemma {:induction false} LookupKeys(ms: Members, id: string)
    ensures Lookup(ms, id).Some? <==> id in Keys(ms)
  {
    if ms.Member? {
      LookupKeys(ms.rest, id);
    }
  }

  // ---- One pass -------------------------------------------------------------

  /** The one object of an accepted response: nothing repeats, every value decodes, only known IDs. */
  predicate Accepted(doc: Document, n: nat) {
    && doc.Whole? && doc.values.Item? && doc.values.head.Object? && doc.values.tail.NoItems?
    && var ms := doc.values.head.members;
       NoDuplicates(doc.values.head) && AllEntries(ms) &&
       forall k <- Keys(ms) :: exists i :: 0 <= i < n && k == FindingID(i)
  }

  /** The verdict the response's entry for finding i spells, read first-wins. */
  function VerdictOf(doc: Document, i: nat): Option<string>
    requires doc.Whole? && doc.values.Item? && doc.values.head.Object?
  {
    var v := Lookup(doc.values.head.members, FindingID(i));
    if v.None? then None
    else if v.value.Object? then Some(FirstField(v.value.members, "verdict"))
    else Some("")
  }

  /** Some verdict of a pass is confirmed or refuted only as the accepted response says. */
  predicate Says(doc: Document, n: nat, i: nat, verdict: string) {
    Accepted(doc, n) && VerdictOf(doc, i) == Some(verdict)
  }

  function Ids(n: nat): (s: set<string>)
    ensures forall id :: id in s <==> exists i :: 0 <= i < n && id == FindingID(i)
  {
    set i | 0 <= i < n :: FindingID(i)
  }

  method DegradedPass(n: nat) returns (out: seq<Entry>)
    ensures |out| == n && forall e <- out :: e.verdict == INSUFFICIENT
  {
    out := seq(n, _ => Entry(INSUFFICIENT, ""));
  }

  lemma {:induction false} ValuesClean(ms: Members, id: string)
    requires NoMemberDuplicates(ms) && Lookup(ms, id).Some?
    ensures NoDuplicates(Lookup(ms, id).value)
  {
    if ms.key != id {
      ValuesClean(ms.rest, id);
    }
  }

  lemma GateIsNoDuplicates(doc: Document)
    requires doc.Whole? && doc.values.Item? && doc.values.tail.NoItems?
    ensures Walk(Stack([]), ItemTokens(doc.values)) == Duplicate <==> !NoDuplicates(doc.values.head)
  {
    WalkAcceptsExactly(doc.values);
  }

  lemma EntryVerdict(doc: Document, n: nat, i: nat, m: map<string, Entry>)
    requires Accepted(doc, n) && DecodeMembers(doc.values.head.members, map[]) == Some(m)
    ensures FindingID(i) in m <==> VerdictOf(doc, i).Some?
    ensures FindingID(i) in m ==> Some(m[FindingID(i)].verdict) == VerdictOf(doc, i)
  {
    hide FieldError, LastField, FirstField, Lower, FindingID, DistinctFolded;
    var ms, id := doc.values.head.members, FindingID(i);
    FoldedDistinct(ms, {});
    var start: map<string, Entry> := map[];
    assert start.Keys == {};
    DecodedMembers(ms, map[]);
    if id in m {
      ValuesClean(ms, id);
      var v := Lookup(ms, id).value;
      if v.Object? {
        LastWinsIsFirstWins(v.members, "verdict");
      }
    }
  }

  /** parsePass: n verdicts; nothing but the accepted response's own entry confirms or refutes. */
  method ParsePass(doc: Document, n: nat) returns (out: seq<Entry>)
    requires Readable(doc)
    ensures |out| == n
    ensures forall i :: 0 <= i < n ==>
                          (out[i].verdict == CONFIRMED <==> Says(doc, n, i, CONFIRMED)) &&
                          (out[i].verdict == REFUTED <==> Says(doc, n, i, REFUTED)) &&
                          KnownVerdict(out[i].verdict)
  {
    hide DecodeMembers, Decimal, NoDuplicates, Walk, Tokens, ItemTokens, FirstField, AllEntries;
    var err: GateError;
    match doc {
      case Whole(vs) =>
        assert ItemTokens(vs) + [] == ItemTokens(vs);
        err := EnsureNoDuplicateKeys(ItemTokens(vs), false, vs, []);
      case Part(toks, broken, vs, rest) =>
        err := EnsureNoDuplicateKeys(toks, broken, vs, rest);
    }
    var m: Option<map<string, Entry>> := None;
    if err.NoError? {
      m := DecodeVerdictObject(doc);
    }
    if m.None? || !(m.value.Keys <= Ids(n)) {
      RejectedNot(doc, n, err, m);
      out := DegradedPass(n);
      return;
    }
    AcceptedWhen(doc, n, m.value);
    out := [];
    for i := 0 to n
      invariant |out| == i
      invariant forall k :: 0 <= k < i ==>
                              (out[k].verdict == CONFIRMED <==> Says(doc, n, k, CONFIRMED)) &&
                              (out[k].verdict == REFUTED <==> Says(doc, n, k, REFUTED)) &&
                              KnownVerdict(out[k].verdict)
    {
      EntryVerdict(doc, n, i, m.value);
      var id := FindingID(i);
      if id !in m.value {
        out := out + [Entry(INSUFFICIENT, "verdict missing for this finding")];
      } else if !KnownVerdict(m.value[id].verdict) {
        out := out + [Entry(INSUFFICIENT, "unknown verdict; " + m.value[id].justification)];
      } else {
        out := out + [m.value[id]];
      }
    }
  }

  lemma RejectedNot(doc: Document, n: nat, err: GateError, m: Option<map<string, Entry>>)
    requires doc.Whole? ==> (err.NoError? <==> Walk(Stack([]), ItemTokens(doc.values)) != Duplicate)
    requires !err.NoError? ==> m.None?
    requires err.NoError? ==>
               m == if doc.Whole? && doc.values.Item? && doc.values.head.Object? && doc.values.tail.NoItems?
                    then DecodeMembers(doc.values.head.members, map[]) else None
    requires m.None? || !(m.value.Keys <= Ids(n))
    ensures !Accepted(doc, n)
  {
    hide DecodeMembers, Walk, FindingID, DistinctFolded, DecodeEntry, AllEntries;
    if Accepted(doc, n) {
      var ms := doc.values.head.members;
      GateIsNoDuplicates(doc);
      FoldedDistinct(ms, {});
      var start: map<string, Entry> := map[];
      assert start.Keys == {};
      DecodedMembers(ms, map[]);
      forall id | id in m.value
        ensures id in Ids(n)
      {
        LookupKeys(ms, id);
      }
    }
  }

  lemma AcceptedWhen(doc: Document, n: nat, m: map<string, Entry>)
    requires doc.Whole? && doc.values.Item? && doc.values.head.Object? && doc.values.tail.NoItems?
    requires Walk(Stack([]), ItemTokens(doc.values)) != Duplicate
    requires DecodeMembers(doc.values.head.members, map[]) == Some(m) && m.Keys <= Ids(n)
    ensures Accepted(doc, n)
  {
    hide DecodeMembers, Walk, FindingID, DistinctFolded, DecodeEntry, AllEntries;
    var ms := doc.values.head.members;
    GateIsNoDuplicates(doc);
    FoldedDistinct(ms, {});
    var start: map<string, Entry> := map[];
    assert start.Keys == {};
    DecodedMembers(ms, map[]);
    forall k | k in Keys(ms)
      ensures k in Ids(n)
    {
      LookupKeys(ms, k);
    }
  }

  // ---- The panel ------------------------------------------------------------

  /** How one pass's model call came out; Skipped is an interrupt or a spent budget before it. */
  datatype PassReply = Skipped | Failed | NoMessage | Responded(stop: Schema.StopReason, doc: Document)

  predicate AbnormalStop(r: Schema.StopReason) { r != Schema.StopNormal && r != Schema.StopUnspecified }

  /** The pass's response counts, and says this of finding i. */
  predicate PassSays(r: PassReply, n: nat, i: nat, verdict: string) {
    r.Responded? && !AbnormalStop(r.stop) && Says(r.doc, n, i, verdict)
  }

  method RunPass(r: PassReply, n: nat) returns (out: seq<Entry>)
    requires r.Responded? ==> Readable(r.doc)
    ensures |out| == n
    ensures forall i :: 0 <= i < n ==>
                          (out[i].verdict == CONFIRMED <==> PassSays(r, n, i, CONFIRMED)) &&
                          (out[i].verdict == REFUTED <==> PassSays(r, n, i, REFUTED))
  {
    hide Says, Readable;
    if !r.Responded? || AbnormalStop(r.stop) {
      out := DegradedPass(n);
    } else {
      out := ParsePass(r.doc, n);
    }
  }

  /** aggregate */
  method Aggregate(vs: seq<Entry>) returns (o: Outcome)
    ensures o == Refuted <==> exists v <- vs :: v.verdict == REFUTED
    ensures o == Verified <==> vs != [] && forall v <- vs :: v.verdict == CONFIRMED
  {
    var confirmed := 0;
    for i := 0 to |vs|
      invariant 0 <= confirmed <= i
      invariant forall k :: 0 <= k < i ==> vs[k].verdict != REFUTED
      invariant confirmed == i <==> forall k :: 0 <= k < i ==> vs[k].verdict == CONFIRMED
    {
      if vs[i].verdict == REFUTED {
        return Refuted;
      }
      if vs[i].verdict == CONFIRMED {
        confirmed := confirmed + 1;
      }
    }
    if |vs| > 0 && confirmed == |vs| {
      return Verified;
    }
    return Unverified;
  }

  /**
    A finding is verified exactly when both passes' accepted responses confirm it, and refuted
    exactly when one of them refutes it; nothing else a pass comes back with does either.
   */
  method Panel(benign: PassReply, sufficiency: PassReply, n: nat) returns (outcomes: seq<Outcome>)
    requires benign.Responded? ==> Readable(benign.doc)
    requires sufficiency.Responded? ==> Readable(sufficiency.doc)
    ensures |outcomes| == n
    ensures forall i :: 0 <= i < n ==>
                          (outcomes[i] == Verified <==>
                           PassSays(benign, n, i, CONFIRMED) && PassSays(sufficiency, n, i, CONFIRMED))
    ensures forall i :: 0 <= i < n ==>
                          (outcomes[i] == Refuted <==>
                           PassSays(benign, n, i, REFUTED) || PassSays(sufficiency, n, i, REFUTED))
  {
    hide PassSays, Readable;
    var first := RunPass(benign, n);
    var second := RunPass(sufficiency, n);
    outcomes := [];
    for i := 0 to n
      invariant |outcomes| == i
      invariant forall k :: 0 <= k < i ==>
                              (outcomes[k] == Verified <==>
                               first[k].verdict == CONFIRMED && second[k].verdict == CONFIRMED)
      invariant forall k :: 0 <= k < i ==>
                              (outcomes[k] == Refuted <==>
                               first[k].verdict == REFUTED || second[k].verdict == REFUTED)
    {
      var vs := [first[i], second[i]];
      var o := Aggregate(vs);
      assert vs[0] in vs && vs[1] in vs;
      outcomes := outcomes + [o];
    }
  }
}
