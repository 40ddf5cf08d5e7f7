/**
  Agent precedence (internal/agentcatalog/catalog.go, name.go): listing, naming and resolving
  agents over an ordered list of roots, on a fixed file system.
 */
module AgentCatalog {
  import opened Sequences
  import opened Wrappers
  import opened StableSort

  const MD_EXT := ".md"
  const MAX_NAME_LENGTH: nat := 64

  /** What reading and parsing one directory entry gives. */
  datatype Content = Usable(description: string, body: string) | Unusable(reason: string)

  datatype File = File(name: string, content: Content)

  datatype Dir = Missing | Unreadable | Holds(files: seq<File>)

  datatype Root = Root(source: int, dir: Dir, display: string)

  datatype Error =
    | BadName
    | NotFound
    | CannotEnumerate(display: string)
    | Invalid(path: string, reason: string)
    | Disappeared

  datatype Result<T> = Ok(value: T) | Fail(error: Error)

  datatype Definition = Definition(name: string, description: string, body: string, source: int, path: string)

  datatype Entry = Entry(name: string, description: string, source: int, path: string, shadowed: bool,
                         err: Option<Error>)

  // ---- Names ----------------------------------------------------------------

  predicate IsNameByte(c: char) { 'a' <= c <= 'z' || '0' <= c <= '9' || c == '-' }

  const DEVICES: set<string> := {
    "con", "prn", "aux", "nul",
    "com1", "com2", "com3", "com4", "com5", "com6", "com7", "com8", "com9",
    "lpt1", "lpt2", "lpt3", "lpt4", "lpt5", "lpt6", "lpt7", "lpt8", "lpt9"
  }

  predicate ValidName(name: string) {
    && 0 < |name| <= MAX_NAME_LENGTH
    && (forall c <- name :: IsNameByte(c))
    && name[0] != '-' && name[|name| - 1] != '-'
    && name !in DEVICES
  }

  function AgentStem(filename: string): (stem: Option<string>)
    ensures stem.Some? ==> filename == stem.value + MD_EXT && ValidName(stem.value)
  {
    var n := |filename| - |MD_EXT|;
    if n <= 0 || filename[n..] != MD_EXT then None
    else
      assert filename == filename[..n] + MD_EXT;
      if ValidName(filename[..n]) then Some(filename[..n]) else None
  }

  /** A file is a candidate exactly when its name is a valid agent name and the extension. */
  lemma StemExact(filename: string, stem: string)
    ensures AgentStem(filename) == Some(stem) <==> ValidName(stem) && filename == stem + MD_EXT
  {
    if ValidName(stem) && filename == stem + MD_EXT {
      assert filename[|stem|..] == MD_EXT && filename[..|stem|] == stem;
    }
  }

  // ---- One root -------------------------------------------------------------

  function Path(r: Root, name: string): string { r.display + "/" + name + MD_EXT }

  /** The content of the first entry with this exact file name. */
  function Find(files: seq<File>, filename: string): Option<Content> {
    if files == [] then None
    else if files[0].name == filename then Some(files[0].content)
    else Find(files[1..], filename)
  }

  /** readFrom: nothing when absent, a definition when usable, an error when claimed but unusable. */
  function ReadFrom(r: Root, name: string): Result<Option<Definition>> {
    match r.dir
    case Missing => Ok(None)
    case Unreadable => Fail(CannotEnumerate(r.display))
    case Holds(files) =>
      match Find(files, name + MD_EXT)
      case None => Ok(None)
      case Some(Unusable(reason)) => Fail(Invalid(Path(r, name), reason))
      case Some(Usable(description, body)) => Ok(Some(Definition(name, description, body, r.source, Path(r, name))))
  }

  /** The root holds an entry for this name. */
  predicate HoldsAgent(r: Root, name: string) {
    r.dir.Holds? && ValidName(name) && Find(r.dir.files, name + MD_EXT).Some?
  }

  function Stems(files: seq<File>): seq<string> {
    if files == [] then []
    else
      (match AgentStem(files[0].name) case Some(stem) => [stem] case None => []) + Stems(files[1..])
  }

  function Candidates(r: Root): seq<string> {
    if r.dir.Holds? then Stems(r.dir.files) else []
  }

  lemma {:induction false} StemsHold(files: seq<File>, name: string)
    ensures name in Stems(files) <==> ValidName(name) && Find(files, name + MD_EXT).Some?
  {
    if files != [] {
      StemsHold(files[1..], name);
      StemExact(files[0].name, name);
    }
  }

  lemma CandidatesHold(r: Root)
    ensures forall n :: n in Candidates(r) <==> HoldsAgent(r, n)
  {
    hide ValidName, Stems, Find;
    if r.dir.Holds? {
      forall n ensures n in Candidates(r) <==> HoldsAgent(r, n) {
        StemsHold(r.dir.files, n);
      }
    }
  }

  method CandidateNames(r: Root) returns (names: Result<seq<string>>)
    ensures r.dir.Unreadable? <==> names == Fail(CannotEnumerate(r.display))
    ensures !r.dir.Unreadable? ==> names == Ok(Candidates(r))
    ensures names.Ok? ==> forall n :: n in names.value <==> HoldsAgent(r, n)
  {
    hide ValidName, AgentStem, HoldsAgent, Find;
    CandidatesHold(r);
    if r.dir.Missing? {
      return Ok([]);
    }
    if r.dir.Unreadable? {
      return Fail(CannotEnumerate(r.display));
    }
    var files := r.dir.files;
    var out := [];
    for i := 0 to |files|
      invariant out + Stems(files[i..]) == Stems(files)
    {
      assert files[i..][1..] == files[i + 1..];
      var stem := AgentStem(files[i].name);
      if stem.Some? {
        out := out + [stem.value];
      }
    }
    assert files[|files|..] == [] && out + [] == out;
    return Ok(out);
  }

  function EntryFor(r: Root, name: string, shadowed: bool): Entry {
    var e := Entry(name, "", r.source, Path(r, name), shadowed, None);
    match ReadFrom(r, name)
    case Fail(err) => e.(err := Some(err))
    case Ok(None) => e.(err := Some(Disappeared))
    case Ok(Some(def)) => e.(description := def.description)
  }

  // ---- Every root -----------------------------------------------------------

  datatype Candidate = Candidate(root: Root, name: string)

  function Tagged(r: Root, names: seq<string>): (cands: seq<Candidate>)
    ensures |cands| == |names|
    ensures forall i :: 0 <= i < |names| ==> cands[i] == Candidate(r, names[i])
  {
    seq(|names|, i requires 0 <= i < |names| => Candidate(r, names[i]))
  }

  /** The candidates of every root, in root order. */
  function AllCandidates(roots: seq<Root>): seq<Candidate> {
    if roots == [] then []
    else
      var n := |roots| - 1;
      AllCandidates(roots[..n]) + Tagged(roots[n], Candidates(roots[n]))
  }

  predicate Named(cands: seq<Candidate>, name: string) { exists c <- cands :: c.name == name }

  /** The rows before sorting: a row is shadowed when its name came before. */
  function Marked(cands: seq<Candidate>): seq<Entry> {
    if cands == [] then []
    else
      var n := |cands| - 1;
      Marked(cands[..n]) + [EntryFor(cands[n].root, cands[n].name, Named(cands[..n], cands[n].name))]
  }

  predicate Enumerable(roots: seq<Root>) { forall r <- roots :: !r.dir.Unreadable? }

  function FirstHolder(roots: seq<Root>, name: string): (i: nat)
    ensures i <= |roots|
    ensures i < |roots| ==> HoldsAgent(roots[i], name)
    ensures forall k :: 0 <= k < i ==> !HoldsAgent(roots[k], name)
  {
    if roots == [] || HoldsAgent(roots[0], name) then 0
    else
      var i := 1 + FirstHolder(roots[1..], name);
      assert forall k :: 0 < k < i ==> roots[k] == roots[1..][k - 1];
      i
  }

  // ---- The order of rows ----------------------------------------------------

  /** The listing's order: by name, then by source. */
  predicate RowBefore(a: Entry, b: Entry) {
    if a.name != b.name then Before(a.name, b.name) else a.source < b.source
  }

  lemma RowsWeak()
    ensures Weak(RowBefore)
  {
    NamesWeak();
    hide Before;
    forall a, b, c | !RowBefore(b, a) && !RowBefore(c, b)
      ensures !RowBefore(c, a)
    {
      BeforeTotal(a.name, b.name);
      BeforeTotal(b.name, c.name);
      BeforeTotal(a.name, c.name);
    }
    forall a, b | RowBefore(a, b)
      ensures !RowBefore(b, a)
    {
      BeforeTotal(a.name, b.name);
    }
  }

  // ---- Who wins a name ------------------------------------------------------

  function FirstOf(cands: seq<Candidate>, name: string): (c: Option<Candidate>)
    ensures c.Some? ==> c.value in cands && c.value.name == name
    ensures c.Some? <==> Named(cands, name)
  {
    if cands == [] then None
    else
      var init, last := cands[..|cands| - 1], cands[|cands| - 1];
      assert cands == init + [last];
      match FirstOf(init, name)
      case Some(c) => Some(c)
      case None => if last.name == name then Some(last) else None
  }

  lemma {:induction false} FirstOfJoin(a: seq<Candidate>, b: seq<Candidate>, name: string)
    ensures FirstOf(a + b, name) == if FirstOf(a, name).Some? then FirstOf(a, name) else FirstOf(b, name)
  {
    if b == [] {
      assert a + b == a;
    } else {
      FirstOfJoin(a, b[..|b| - 1], name);
      assert (a + b)[..|a + b| - 1] == a + b[..|b| - 1];
    }
  }

  lemma FirstOfTagged(r: Root, names: seq<string>, name: string)
    ensures FirstOf(Tagged(r, names), name) == if name in names then Some(Candidate(r, name)) else None
  {
    var cands := Tagged(r, names);
    if name in names {
      var i :| 0 <= i < |names| && names[i] == name;
      assert cands[i] in cands;
    }
  }

  /** The first candidate of a name comes from the first root that holds it. */
  lemma {:induction false} FirstCandidate(roots: seq<Root>, name: string)
    ensures FirstOf(AllCandidates(roots), name) ==
              var i := FirstHolder(roots, name);
              if i < |roots| then Some(Candidate(roots[i], name)) else None
  {
    if roots != [] {
      var n := |roots| - 1;
      var init, last := roots[..n], roots[n];
      FirstCandidate(init, name);
      FirstOfJoin(AllCandidates(init), Tagged(last, Candidates(last)), name);
      FirstOfTagged(last, Candidates(last), name);
      CandidatesHold(last);
      HolderSnoc(roots, name);
    }
  }

  lemma HolderSnoc(roots: seq<Root>, name: string)
    requires roots != []
    ensures var n := |roots| - 1;
            FirstHolder(roots, name) ==
              if FirstHolder(roots[..n], name) < n then FirstHolder(roots[..n], name)
              else if HoldsAgent(roots[n], name) then n else n + 1
  {
    hide HoldsAgent;
    var n := |roots| - 1;
    var i, k := FirstHolder(roots, name), FirstHolder(roots[..n], name);
    assert i < n ==> HoldsAgent(roots[..n][i], name);
    assert k < n ==> HoldsAgent(roots[k], name);
    assert forall j :: 0 <= j < k ==> !HoldsAgent(roots[..n][j], name) && roots[..n][j] == roots[j];
  }

  function Unshadowed(rows: seq<Entry>, name: string): seq<Entry> {
    if rows == [] then []
    else
      var n := |rows| - 1;
      Unshadowed(rows[..n], name) + if rows[n].name == name && !rows[n].shadowed then [rows[n]] else []
  }

  lemma {:induction false} OneUnshadowed(cands: seq<Candidate>, name: string)
    ensures Unshadowed(Marked(cands), name) ==
              match FirstOf(cands, name) case Some(c) => [EntryFor(c.root, name, false)] case None => []
  {
    if cands != [] {
      OneUnshadowed(cands[..|cands| - 1], name);
      var rows := Marked(cands);
      assert rows[..|rows| - 1] == Marked(cands[..|cands| - 1]);
    }
  }

  lemma {:induction false} UnshadowedInsert(x: Entry, rows: seq<Entry>, name: string)
    ensures multiset(Unshadowed(Insert(RowBefore, x, rows), name)) ==
              multiset(Unshadowed(rows, name)) + if x.name == name && !x.shadowed then multiset{x} else multiset{}
  {
    var r := Insert(RowBefore, x, rows);
    var init := if rows == [] then [] else rows[..|rows| - 1];
    if rows != [] && RowBefore(x, rows[|rows| - 1]) {
      UnshadowedInsert(x, init, name);
      assert r[..|r| - 1] == Insert(RowBefore, x, init);
    } else {
      assert r[..|r| - 1] == rows;
    }
  }

  lemma {:induction false} UnshadowedSort(rows: seq<Entry>, name: string)
    ensures multiset(Unshadowed(Sort(RowBefore, rows), name)) == multiset(Unshadowed(rows, name))
  {
    if rows != [] {
      UnshadowedSort(rows[..|rows| - 1], name);
      UnshadowedInsert(rows[|rows| - 1], Sort(RowBefore, rows[..|rows| - 1]), name);
    }
  }

  function Listing(roots: seq<Root>): seq<Entry> { Sort(RowBefore, Marked(AllCandidates(roots))) }

  /** Exactly one unshadowed row a listed name, and it is the first holder's. */
  lemma OneWinner(roots: seq<Root>, name: string)
    ensures Unshadowed(Listing(roots), name) ==
              var i := FirstHolder(roots, name);
              if i < |roots| then [EntryFor(roots[i], name, false)] else []
  {
    FirstCandidate(roots, name);
    OneUnshadowed(AllCandidates(roots), name);
    UnshadowedSort(Marked(AllCandidates(roots)), name);
    SmallMultiset(Unshadowed(Listing(roots), name), Unshadowed(Marked(AllCandidates(roots)), name));
  }

  lemma SmallMultiset(a: seq<Entry>, b: seq<Entry>)
    requires multiset(a) == multiset(b) && |b| <= 1
    ensures a == b
  {
    assert |a| == |multiset(a)| == |multiset(b)| == |b|;
    if |a| == 1 {
      assert a[0] in multiset(a);
    }
  }

  // ---- Resolving ------------------------------------------------------------

  function Resolved(roots: seq<Root>, name: string): Result<Definition> {
    if !ValidName(name) then Fail(BadName) else Search(roots, name)
  }

  function Search(roots: seq<Root>, name: string): Result<Definition> {
    if roots == [] then Fail(NotFound)
    else
      match ReadFrom(roots[0], name)
      case Fail(err) => Fail(err)
      case Ok(Some(def)) => Ok(def)
      case Ok(None) => Search(roots[1..], name)
  }

  /** The search ends at the first holder. */
  lemma {:induction false} SearchEnds(roots: seq<Root>, name: string)
    requires Enumerable(roots) && ValidName(name)
    ensures var i := FirstHolder(roots, name);
            if i == |roots| then Search(roots, name) == Fail(NotFound)
            else match ReadFrom(roots[i], name)
                 case Ok(Some(def)) => Search(roots, name) == Ok(def)
                 case Ok(None) => false
                 case Fail(err) => Search(roots, name) == Fail(err) && err.Invalid?
  {
    if roots != [] {
      assert roots[0] in roots;
      assert forall r <- roots[1..] :: r in roots;
      if !HoldsAgent(roots[0], name) {
        SearchEnds(roots[1..], name);
      }
    }
  }

  /** The definition an unshadowed row stands for. */
  predicate RowIsDefinition(row: Entry, def: Definition) {
    && row.err.None? && row.name == def.name && row.description == def.description
    && row.source == def.source && row.path == def.path
  }

  /**
    With every root enumerable, resolving agrees with the listing: it gives the unshadowed row's
    definition when that row has no error, that row's error when it has one, and not-found exactly
    for a valid name with no row.
   */
  lemma ResolveAgrees(roots: seq<Root>, name: string)
    requires Enumerable(roots)
    ensures var rows := Unshadowed(Listing(roots), name);
            match Resolved(roots, name)
            case Ok(def) => |rows| == 1 && RowIsDefinition(rows[0], def)
            case Fail(NotFound) => ValidName(name) && rows == []
            case Fail(BadName) => !ValidName(name) && rows == []
            case Fail(err) => |rows| == 1 && rows[0].err == Some(err)
  {
    hide ValidName, Listing, Unshadowed;
    OneWinner(roots, name);
    if ValidName(name) {
      SearchEnds(roots, name);
    }
  }

  // ---- The listing ----------------------------------------------------------

  lemma {:induction false} MarkedHas(cands: seq<Candidate>)
    ensures forall c <- cands ::
              EntryFor(c.root, c.name, true) in Marked(cands) || EntryFor(c.root, c.name, false) in Marked(cands)
    ensures forall row <- Marked(cands) :: exists c <- cands :: row == EntryFor(c.root, c.name, row.shadowed)
  {
    if cands != [] {
      var n := |cands| - 1;
      MarkedHas(cands[..n]);
      assert cands == cands[..n] + [cands[n]];
    }
  }

  lemma {:induction false} CandidateRoots(roots: seq<Root>, c: Candidate)
    ensures c in AllCandidates(roots) <==> c.root in roots && HoldsAgent(c.root, c.name)
  {
    if roots != [] {
      var n := |roots| - 1;
      CandidateRoots(roots[..n], c);
      CandidatesHold(roots[n]);
      assert roots == roots[..n] + [roots[n]];
      var tags := Tagged(roots[n], Candidates(roots[n]));
      if c.root == roots[n] && c.name in Candidates(roots[n]) {
        var i :| 0 <= i < |tags| && Candidates(roots[n])[i] == c.name;
        assert tags[i] == c;
      }
    }
  }

  lemma ListingHas(roots: seq<Root>, row: Entry)
    ensures row in Listing(roots) <==> row in Marked(AllCandidates(roots))
  {
    hide Marked, AllCandidates, Weak, Ordered;
    var rows := Marked(AllCandidates(roots));
    RowsWeak();
    SortSorts(RowBefore, rows);
    assert row in Listing(roots) <==> row in multiset(Listing(roots));
    assert row in rows <==> row in multiset(rows);
  }

  /** No agent a root holds is left out of the listing. */
  lemma HeldIsListed(roots: seq<Root>, r: Root, name: string)
    requires r in roots && HoldsAgent(r, name)
    ensures exists shadowed :: EntryFor(r, name, shadowed) in Listing(roots)
  {
    hide HoldsAgent, EntryFor, Listing;
    var cands := AllCandidates(roots);
    CandidateRoots(roots, Candidate(r, name));
    MarkedHas(cands);
    assert Candidate(r, name) in cands;
    ListingHas(roots, EntryFor(r, name, true));
    ListingHas(roots, EntryFor(r, name, false));
  }

  /** No row of the listing is made up. */
  lemma ListedIsHeld(roots: seq<Root>, row: Entry)
    requires row in Listing(roots)
    ensures exists r <- roots :: HoldsAgent(r, row.name) && row == EntryFor(r, row.name, row.shadowed)
  {
    hide HoldsAgent, Listing, EntryFor, AllCandidates, Marked;
    var cands := AllCandidates(roots);
    ListingHas(roots, row);
    MarkedHas(cands);
    var c :| c in cands && row == EntryFor(c.root, c.name, row.shadowed);
    CandidateRoots(roots, c);
    RowName(c.root, c.name, row.shadowed);
  }

  lemma RowName(r: Root, name: string, shadowed: bool)
    ensures EntryFor(r, name, shadowed).name == name && EntryFor(r, name, shadowed).source == r.source
  {
  }

  /** The rows of one name, in order. */
  function Of(rows: seq<Entry>, name: string): seq<Entry> {
    if rows == [] then []
    else
      var n := |rows| - 1;
      Of(rows[..n], name) + if rows[n].name == name then [rows[n]] else []
  }

  lemma {:induction false} OfHas(rows: seq<Entry>, name: string)
    ensures forall row :: row in Of(rows, name) <==> row in rows && row.name == name
  {
    if rows != [] {
      OfHas(rows[..|rows| - 1], name);
      assert rows == rows[..|rows| - 1] + [rows[|rows| - 1]];
    }
  }

  lemma OfPush(init: seq<Entry>, last: Entry, name: string)
    ensures Of(init + [last], name) == Of(init, name) + if last.name == name then [last] else []
  {
    assert (init + [last])[..|init|] == init;
  }

  /** In ordered rows, x goes after the last row of its name when it goes after the last row. */
  lemma AfterLast(x: Entry, rows: seq<Entry>, name: string)
    requires Ordered(RowBefore, rows) && rows != [] && !RowBefore(x, rows[|rows| - 1])
    ensures Insert(RowBefore, x, Of(rows, name)) == Of(rows, name) + [x]
  {
    var of := Of(rows, name);
    OfHas(rows, name);
    hide Of;
    if of != [] {
      assert of[|of| - 1] in of;
      var k :| 0 <= k < |rows| && rows[k] == of[|of| - 1];
      assert k < |rows| - 1 ==> !RowBefore(rows[|rows| - 1], rows[k]);
      RowsWeak();
      hide RowBefore;
    }
  }

  lemma {:induction false} OfInsert(x: Entry, rows: seq<Entry>, name: string)
    requires Ordered(RowBefore, rows)
    ensures Of(Insert(RowBefore, x, rows), name) ==
              if x.name == name then Insert(RowBefore, x, Of(rows, name)) else Of(rows, name)
  {
    hide RowBefore, Of;
    if rows == [] {
      OfPush([], x, name);
      OfNone(name);
      assert [] + [x] == [x];
    } else if RowBefore(x, rows[|rows| - 1]) {
      var init, last := rows[..|rows| - 1], rows[|rows| - 1];
      OfInsert(x, init, name);
      OfPush(Insert(RowBefore, x, init), last, name);
      OfPush(init, last, name);
      assert rows == init + [last];
      InsertBeforeLast(x, init, last);
      if last.name == name {
        InsertBeforeLast(x, Of(init, name), last);
      } else {
        assert Of(init, name) + [] == Of(init, name);
        assert Of(Insert(RowBefore, x, init), name) + [] == Of(Insert(RowBefore, x, init), name);
      }
    } else {
      OfPush(rows, x, name);
      AfterLast(x, rows, name);
    }
  }

  lemma OfNone(name: string)
    ensures Of([], name) == []
  {
  }

  lemma InsertBeforeLast(x: Entry, init: seq<Entry>, last: Entry)
    requires RowBefore(x, last)
    ensures Insert(RowBefore, x, init + [last]) == Insert(RowBefore, x, init) + [last]
  {
    assert (init + [last])[..|init|] == init;
  }

  lemma {:induction false} OfSort(rows: seq<Entry>, name: string)
    ensures Of(Sort(RowBefore, rows), name) == Sort(RowBefore, Of(rows, name))
  {
    if rows == [] {
    } else {
      hide Of, Weak, RowBefore, Ordered, Insert, Sort;
      var init, last := rows[..|rows| - 1], rows[|rows| - 1];
      assert rows == init + [last];
      OfSort(init, name);
      SortPush(init, last);
      SortIsOrdered(init);
      OfInsert(last, Sort(RowBefore, init), name);
      OfPush(init, last, name);
      if last.name == name {
        SortPush(Of(init, name), last);
      } else {
        assert Of(init, name) + [] == Of(init, name);
      }
    }
  }

  lemma SortIsOrdered(rows: seq<Entry>)
    ensures Ordered(RowBefore, Sort(RowBefore, rows))
  {
    RowsWeak();
    SortSorts(RowBefore, rows);
  }

  lemma SortPush(init: seq<Entry>, last: Entry)
    ensures Sort(RowBefore, init + [last]) == Insert(RowBefore, last, Sort(RowBefore, init))
  {
    assert (init + [last])[..|init|] == init;
  }

  /** The sources never fall along these rows. */
  predicate SourcesRise(rows: seq<Entry>) {
    forall i, j :: 0 <= i < j < |rows| ==> rows[i].source <= rows[j].source
  }

  /** The rows one more root adds for a name: some if and only if it holds the name, all with its source. */
  lemma {:induction false} RowsAdded(before: seq<Candidate>, r: Root, names: seq<string>, name: string)
    returns (added: seq<Entry>)
    ensures Of(Marked(before + Tagged(r, names)), name) == Of(Marked(before), name) + added
    ensures (forall row <- added :: row.source == r.source) && (added != [] <==> name in names)
  {
    hide Named, Marked, Of, EntryFor;
    if names == [] {
      assert before + Tagged(r, names) == before;
      added := [];
      assert Of(Marked(before), name) + [] == Of(Marked(before), name);
    } else {
      var n := |names| - 1;
      var more := RowsAdded(before, r, names[..n], name);
      assert names == names[..n] + [names[n]];
      TaggedSnoc(before, r, names, n);
      assert names[..n + 1] == names;
      var cands := before + Tagged(r, names[..n]);
      MarkedSnoc(cands, Candidate(r, names[n]));
      var row := EntryFor(r, names[n], Named(cands, names[n]));
      OfPush(Marked(cands), row, name);
      RowName(r, names[n], Named(cands, names[n]));
      var last := if names[n] == name then [row] else [];
      added := more + last;
      Regroup(Of(Marked(before), name), more, last);
    }
  }

  /** The sources of the roots that hold this name never fall along the roots. */
  predicate HoldersRise(roots: seq<Root>, name: string) {
    forall i, j | 0 <= i < j < |roots| && HoldsAgent(roots[i], name) && HoldsAgent(roots[j], name) ::
      roots[i].source <= roots[j].source
  }

  predicate RowsBelow(rows: seq<Entry>, source: int) { forall row <- rows :: row.source <= source }

  predicate HoldersBelow(roots: seq<Root>, name: string, source: int) {
    forall r <- roots | HoldsAgent(r, name) :: r.source <= source
  }

  lemma {:induction false} RowsFollowRoots(roots: seq<Root>, name: string)
    ensures var rows := Of(Marked(AllCandidates(roots)), name);
            && (SourcesRise(rows) <==> HoldersRise(roots, name))
            && (forall x :: RowsBelow(rows, x) <==> HoldersBelow(roots, name, x))
  {
    hide HoldsAgent, Marked, Of, Candidates, HoldersRise, SourcesRise, RowsBelow, HoldersBelow;
    if roots == [] {
      NoCandidates();
      OfNone(name);
      NothingToOrder(name);
    } else {
      var n := |roots| - 1;
      var init, last := roots[..n], roots[n];
      RowsFollowRoots(init, name);
      var earlier := Of(Marked(AllCandidates(init)), name);
      var added := RowsAdded(AllCandidates(init), last, Candidates(last), name);
      CandidatesHold(last);
      assert roots == init + [last];
      JoinRises(earlier, added, last.source);
      HoldersSnoc(init, last, name);
    }
  }

  lemma NothingToOrder(name: string)
    ensures SourcesRise([]) && HoldersRise([], name) && forall x :: RowsBelow([], x) && HoldersBelow([], name, x)
  {
  }

  lemma JoinRises(earlier: seq<Entry>, added: seq<Entry>, source: int)
    requires forall row <- added :: row.source == source
    ensures SourcesRise(earlier + added) <==> SourcesRise(earlier) && (added != [] ==> RowsBelow(earlier, source))
    ensures forall x :: RowsBelow(earlier + added, x) <==> RowsBelow(earlier, x) && (added != [] ==> source <= x)
  {
    var rows := earlier + added;
    assert forall row :: row in rows <==> row in earlier || row in added;
    if SourcesRise(rows) {
      forall i, j | 0 <= i < j < |earlier|
        ensures earlier[i].source <= earlier[j].source
      {
        assert rows[i].source <= rows[j].source;
      }
      if added != [] {
        assert added[0] in added;
        forall i | 0 <= i < |earlier|
          ensures earlier[i].source <= source
        {
          assert rows[i].source <= rows[|earlier|].source;
        }
      }
    }
    if SourcesRise(earlier) && (added != [] ==> RowsBelow(earlier, source)) {
      forall i, j | 0 <= i < j < |rows|
        ensures rows[i].source <= rows[j].source
      {
        if j >= |earlier| {
          assert rows[j] in added;
          assert rows[i] in earlier || rows[i] in added;
        }
      }
    }
    if added != [] {
      assert added[0] in rows && added[0].source == source;
    }
  }

  lemma HoldersSnoc(init: seq<Root>, last: Root, name: string)
    ensures HoldersRise(init + [last], name) <==>
              HoldersRise(init, name) && (HoldsAgent(last, name) ==> HoldersBelow(init, name, last.source))
    ensures forall x :: HoldersBelow(init + [last], name, x) <==>
                          HoldersBelow(init, name, x) && (HoldsAgent(last, name) ==> last.source <= x)
  {
    hide HoldsAgent, HoldersRise, HoldersBelow;
    RiseOfInit(init, last, name);
    RiseToLast(init, last, name);
    RiseOfAll(init, last, name);
    forall x: int
      ensures HoldersBelow(init + [last], name, x) <==>
                HoldersBelow(init, name, x) && (HoldsAgent(last, name) ==> last.source <= x)
    {
      BelowSnoc(init, last, name, x);
    }
  }

  lemma RiseOfInit(init: seq<Root>, last: Root, name: string)
    ensures HoldersRise(init + [last], name) ==> HoldersRise(init, name)
  {
    hide HoldsAgent;
    var roots := init + [last];
    if HoldersRise(roots, name) {
      forall i, j | 0 <= i < j < |init| && HoldsAgent(init[i], name) && HoldsAgent(init[j], name)
        ensures init[i].source <= init[j].source
      {
        assert roots[i] == init[i] && roots[j] == init[j];
      }
    }
  }

  lemma RiseToLast(init: seq<Root>, last: Root, name: string)
    ensures HoldersRise(init + [last], name) && HoldsAgent(last, name) ==> HoldersBelow(init, name, last.source)
  {
    hide HoldsAgent;
    var roots := init + [last];
    if HoldersRise(roots, name) && HoldsAgent(last, name) {
      forall r <- init | HoldsAgent(r, name)
        ensures r.source <= last.source
      {
        var i :| 0 <= i < |init| && init[i] == r;
        assert roots[i] == r && roots[|init|] == last;
      }
    }
  }

  lemma RiseOfAll(init: seq<Root>, last: Root, name: string)
    ensures HoldersRise(init, name) && (HoldsAgent(last, name) ==> HoldersBelow(init, name, last.source)) ==>
              HoldersRise(init + [last], name)
  {
    hide HoldsAgent;
    var roots, n := init + [last], |init|;
    if HoldersRise(init, name) && (HoldsAgent(last, name) ==> HoldersBelow(init, name, last.source)) {
      forall i, j | 0 <= i < j < |roots| && HoldsAgent(roots[i], name) && HoldsAgent(roots[j], name)
        ensures roots[i].source <= roots[j].source
      {
        assert roots[i] == init[i] && init[i] in init;
        if j < n {
          assert roots[j] == init[j];
        }
      }
    }
  }

  lemma BelowSnoc(init: seq<Root>, last: Root, name: string, x: int)
    ensures HoldersBelow(init + [last], name, x) <==>
              HoldersBelow(init, name, x) && (HoldsAgent(last, name) ==> last.source <= x)
  {
    hide HoldsAgent;
    var roots := init + [last];
    assert forall r :: r in roots <==> r in init || r == last;
  }

  /**
    The listing promises name order, then precedence. It sorts by source, so the rows of a name
    come in precedence order exactly when the sources of the roots holding it never fall.
   */
  lemma PrecedenceOrder(roots: seq<Root>, name: string)
    ensures Of(Listing(roots), name) == Of(Marked(AllCandidates(roots)), name) <==> HoldersRise(roots, name)
  {
    var all := Marked(AllCandidates(roots));
    RowsFollowRoots(roots, name);
    hide HoldersRise, AllCandidates, Marked, HoldsAgent;
    var rows := Of(all, name);
    OfSort(all, name);
    RowsWeak();
    SortFixes(RowBefore, rows);
    OfHas(all, name);
    OneNameOrder(rows, name);
  }

  lemma OneNameOrder(rows: seq<Entry>, name: string)
    requires forall row <- rows :: row.name == name
    ensures Ordered(RowBefore, rows) <==> SourcesRise(rows)
  {
    assert forall i :: 0 <= i < |rows| ==> rows[i] in rows;
  }

  /** Two roots registered against the order of their sources list a shadowed row first. */
  lemma OutOfOrder()
    ensures var file := File("a.md", Usable("", "b"));
            var roots := [Root(1, Holds([file]), "x"), Root(0, Holds([file]), "y")];
            Of(Listing(roots), "a") != Of(Marked(AllCandidates(roots)), "a")
  {
    var file := File("a.md", Usable("", "b"));
    var roots := [Root(1, Holds([file]), "x"), Root(0, Holds([file]), "y")];
    PrecedenceOrder(roots, "a");
    hide Listing, Of, Marked, AllCandidates;
    assert "a" + MD_EXT == "a.md";
    assert |"a"| == 1 && "a" !in DEVICES;
    assert HoldsAgent(roots[0], "a") && HoldsAgent(roots[1], "a");
  }

  // ---- The catalog's operations ---------------------------------------------

  /** The first root that cannot be enumerated. */
  function FirstUnreadable(roots: seq<Root>): (i: nat)
    ensures i <= |roots| && (i < |roots| ==> roots[i].dir.Unreadable?)
    ensures forall k :: 0 <= k < i ==> !roots[k].dir.Unreadable?
  {
    if roots == [] || roots[0].dir.Unreadable? then 0
    else
      var i := 1 + FirstUnreadable(roots[1..]);
      assert forall k :: 0 < k < i ==> roots[k] == roots[1..][k - 1];
      i
  }

  lemma CandidatesSnoc(roots: seq<Root>, i: nat)
    requires i < |roots|
    ensures AllCandidates(roots[..i + 1]) == AllCandidates(roots[..i]) + Tagged(roots[i], Candidates(roots[i]))
  {
    assert roots[..i + 1][..i] == roots[..i];
  }

  lemma TaggedSnoc(before: seq<Candidate>, r: Root, names: seq<string>, j: nat)
    requires j < |names|
    ensures before + Tagged(r, names[..j + 1]) == (before + Tagged(r, names[..j])) + [Candidate(r, names[j])]
  {
  }

  lemma MarkedSnoc(cands: seq<Candidate>, c: Candidate)
    ensures Marked(cands + [c]) == Marked(cands) + [EntryFor(c.root, c.name, Named(cands, c.name))]
  {
    assert (cands + [c])[..|cands|] == cands;
  }

  lemma NamedSnoc(cands: seq<Candidate>, c: Candidate, name: string)
    ensures Named(cands + [c], name) <==> Named(cands, name) || c.name == name
  {
    assert forall x :: x in cands + [c] <==> x in cands || x == c;
  }

  /** The inner loop of the listing: one root's rows, after those of the roots before it. */
  method AddRows(r: Root, names: seq<string>, ghost before: seq<Candidate>, rows: seq<Entry>, claimed: set<string>)
    returns (out: seq<Entry>, claims: set<string>)
    requires rows == Marked(before) && forall n :: n in claimed <==> Named(before, n)
    ensures out == Marked(before + Tagged(r, names))
    ensures forall n :: n in claims <==> Named(before + Tagged(r, names), n)
  {
    hide EntryFor, Named, Marked;
    out, claims := rows, claimed;
    assert before + Tagged(r, names[..0]) == before;
    for j := 0 to |names|
      invariant out == Marked(before + Tagged(r, names[..j]))
      invariant forall n :: n in claims <==> Named(before + Tagged(r, names[..j]), n)
    {
      var n := names[j];
      ghost var cands := before + Tagged(r, names[..j]);
      TaggedSnoc(before, r, names, j);
      MarkedSnoc(cands, Candidate(r, n));
      out := out + [EntryFor(r, n, n in claims)];
      claims := claims + {n};
      forall m ensures m in claims <==> Named(cands + [Candidate(r, n)], m) {
        NamedSnoc(cands, Candidate(r, n), m);
      }
    }
    assert names[..|names|] == names;
  }

  /** List: the sorted rows, or an error when some root cannot be enumerated. */
  method List(roots: seq<Root>) returns (rows: Result<seq<Entry>>)
    ensures Enumerable(roots) ==> rows == Ok(Listing(roots))
    ensures !Enumerable(roots) ==> rows == Fail(CannotEnumerate(roots[FirstUnreadable(roots)].display))
  {
    hide AllCandidates, Marked, Named, Candidates, Tagged;
    var out: seq<Entry> := [];
    var claimed: set<string> := {};
    NoCandidates();
    assert roots[..0] == [];
    for i := 0 to |roots|
      invariant forall k :: 0 <= k < i ==> !roots[k].dir.Unreadable?
      invariant out == Marked(AllCandidates(roots[..i]))
      invariant forall n :: n in claimed <==> Named(AllCandidates(roots[..i]), n)
    {
      assert roots[i] in roots;
      var names := CandidateNames(roots[i]);
      if names.Fail? {
        return Fail(names.error);
      }
      out, claimed := AddRows(roots[i], names.value, AllCandidates(roots[..i]), out, claimed);
      CandidatesSnoc(roots, i);
    }
    assert roots[..|roots|] == roots;
    return Ok(Sort(RowBefore, out));
  }

  lemma NoCandidates()
    ensures AllCandidates([]) == [] && Marked([]) == [] && forall n :: !Named([], n)
  {
  }

  /** Names: every name some root holds, once, in order. */
  method Names(roots: seq<Root>) returns (names: Result<seq<string>>)
    ensures names.Ok? <==> Enumerable(roots)
    ensures names.Ok? ==> NoRepeats(names.value) && Ordered(Before, names.value)
    ensures names.Ok? ==> forall n :: n in names.value <==> exists r <- roots :: HoldsAgent(r, n)
    ensures names.Ok? ==> forall n :: n in names.value <==> Unshadowed(Listing(roots), n) != []
  {
    hide HoldsAgent, Listing, Unshadowed;
    var out: seq<string> := [];
    var seen: set<string> := {};
    for i := 0 to |roots|
      invariant forall k :: 0 <= k < i ==> !roots[k].dir.Unreadable?
      invariant NoRepeats(out) && (forall n :: n in out <==> n in seen)
      invariant forall n :: n in seen <==> exists k :: 0 <= k < i && HoldsAgent(roots[k], n)
    {
      var found := CandidateNames(roots[i]);
      if found.Fail? {
        assert roots[i] in roots;
        return Fail(found.error);
      }
      ghost var before := seen;
      for j := 0 to |found.value|
        invariant NoRepeats(out) && (forall n :: n in out <==> n in seen)
        invariant forall n :: n in seen <==> n in before || n in found.value[..j]
      {
        if found.value[j] !in seen {
          seen := seen + {found.value[j]};
          out := out + [found.value[j]];
        }
      }
      assert found.value[..|found.value|] == found.value;
    }
    NamesWeak();
    SortKeepsDistinct(Before, out);
    NamesWeak();
    SortSorts(Before, out);
    forall n ensures n in out <==> Unshadowed(Listing(roots), n) != [] {
      OneWinner(roots, n);
    }
    return Ok(Sort(Before, out));
  }

  /** Resolve: the first root that holds the name decides; see ResolveAgrees. */
  method Resolve(roots: seq<Root>, name: string) returns (def: Result<Definition>)
    ensures def == Resolved(roots, name)
  {
    if !ValidName(name) {
      return Fail(BadName);
    }
    for i := 0 to |roots|
      invariant Search(roots, name) == Search(roots[i..], name)
    {
      assert roots[i..][1..] == roots[i + 1..];
      var found := ReadFrom(roots[i], name);
      if found.Fail? {
        return Fail(found.error);
      }
      if found.value.Some? {
        return Ok(found.value.value);
      }
    }
    return Fail(NotFound);
  }
}
