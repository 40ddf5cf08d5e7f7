/**
  The Kubernetes lookup recipe (internal/auth/kubernetes_reference.go, internal/auth/k8s/openapi_root.go)
  against any server: every reply and every context check is an arbitrary choice.
 */
module KubeLookup {
  import opened KubeCache
  import opened Wrappers

  const ROOT_PATH := "/openapi/v3"
  const VERSION_PATH := "/version"
  const HASH_QUERY := "?hash="
  const HASH_LENGTH: nat := 128
  const MAX_GIT_VERSION: nat := 64

  // ---- Replies --------------------------------------------------------------

  /** A parsed root: the serverRelativeURL each key publishes, empty when it has none. */
  datatype Root = Root(entries: map<string, string>)

  /** What a body parses to: nothing where the parse refuses it. */
  datatype Body = Body(empty: bool, root: Option<Root>, doc: Option<Document>, gitVersion: string, sha: string)

  datatype Reply = Failed | Answered(status: int, truncated: bool, body: Body)

  datatype Exchange = Exchange(path: string, reply: Reply)

  predicate ValidHash(s: string) {
    |s| == HASH_LENGTH && forall c <- s :: '0' <= c <= '9' || 'A' <= c <= 'F'
  }

  function CutPrefix(s: string, prefix: string): Option<string> {
    if prefix <= s then Some(s[|prefix|..]) else None
  }

  /** The usable hash the root publishes for key, or the empty text; nothing when key is not listed. */
  function Lookup(root: Root, key: string): (hash: Option<string>)
    ensures hash.Some? <==> key in root.entries
    ensures hash.Some? ==> hash.value == "" || ValidHash(hash.value)
  {
    if key !in root.entries then None
    else
      match CutPrefix(root.entries[key], DocPath(key) + HASH_QUERY)
      case Some(hash) => if ValidHash(hash) then Some(hash) else Some("")
      case None => Some("")
  }

  /** The URL published for key is its document's path, bare or with a query. */
  predicate Canonical(root: Root, key: string) {
    var url := if key in root.entries then root.entries[key] else "";
    DocPath(key) <= url && (|url| == |DocPath(key)| || url[|DocPath(key)|] == '?')
  }

  function DocPath(key: string): string { ROOT_PATH + "/" + key }

  function HashedPath(key: string, hash: string): string {
    if hash == "" then DocPath(key) else DocPath(key) + HASH_QUERY + hash
  }

  /** Admit: which paths a lookup may read; a hash in one must be valid. */
  predicate Admit(key: string, path: string) {
    || path == VERSION_PATH
    || path == ROOT_PATH
    || path == DocPath(key)
    || match CutPrefix(path, DocPath(key) + HASH_QUERY) case Some(hash) => ValidHash(hash) case None => false
  }

  lemma HashedIsAdmitted(key: string, hash: string)
    requires hash == "" || ValidHash(hash)
    ensures Admit(key, HashedPath(key, hash))
    ensures HashedPath(key, hash) != ROOT_PATH && HashedPath(key, hash) != VERSION_PATH
  {
    var doc := DocPath(key);
    var path := HashedPath(key, hash);
    assert path[..|doc|] == doc;
    assert doc[|ROOT_PATH|] == '/';
    assert doc[1] == 'o' && VERSION_PATH[1] == 'v';
    if hash != "" {
      assert path[|doc + HASH_QUERY|..] == hash;
    }
  }

  function Digits(s: string): (n: nat)
    ensures n <= |s|
  {
    if s != [] && '0' <= s[0] <= '9' then 1 + Digits(s[1..]) else 0
  }

  predicate VersionTail(s: string) {
    forall c <- s :: '0' <= c <= '9' || 'A' <= c <= 'Z' || 'a' <= c <= 'z' || c in ".+_-"
  }

  /** v, three dotted numbers, and a tail. */
  predicate UsableVersion(s: string) {
    && |s| <= MAX_GIT_VERSION && s != [] && s[0] == 'v'
    && var a := s[1..]; var i := Digits(a);
    && 0 < i < |a| && a[i] == '.'
    && var b := a[i + 1..]; var j := Digits(b);
    && 0 < j < |b| && b[j] == '.'
    && var c := b[j + 1..];
    && 0 < Digits(c) && VersionTail(c)
  }

  // ---- Answers --------------------------------------------------------------

  datatype Limitation = NoHash | Changed | NoVersion | OfDocument(text: string)

  datatype Source = Source(target: string, document: string, version: string, sha: string, serverHash: string)

  datatype Reason =
    | ContextDone
    | ReadFailed(path: string)
    | Exceeded(path: string)
    | NoV3
    | StatusWas(path: string, status: int)
    | RootRefused
    | DocumentRefused
    | Missing(canonical: bool)

  datatype Result =
    | Reference(source: Source, limitations: seq<Limitation>)
    | OperationNotFound
    | NotListed
    | Unavailable(reason: Reason)

  // ---- What a run of reads shows --------------------------------------------

  predicate Ok(x: Exchange) { x.reply.Answered? && x.reply.status == 200 && !x.reply.truncated }

  predicate RootRead(x: Exchange, key: string) {
    x.path == ROOT_PATH && Ok(x) && x.reply.body.root.Some? && Lookup(x.reply.body.root.value, key).Some?
  }

  /** The latest root read that lists key. */
  function LatestRoot(trace: seq<Exchange>, key: string): (root: Option<Root>)
    ensures root.Some? ==> key in root.value.entries
  {
    if trace == [] then None
    else
      var x := trace[|trace| - 1];
      if RootRead(x, key) then x.reply.body.root else LatestRoot(trace[..|trace| - 1], key)
  }

  function LatestHash(trace: seq<Exchange>, key: string): string {
    match LatestRoot(trace, key) case Some(root) => Lookup(root, key).value case None => ""
  }

  predicate Redirected(trace: seq<Exchange>, path: string) {
    exists x <- trace :: x.path == path && x.reply.Answered? && x.reply.status == 301
  }

  /** The server redirected a read by a hash it had published. */
  predicate HashRejected(trace: seq<Exchange>, key: string) {
    exists x <- trace :: x.path != DocPath(key) && Redirected(trace, x.path)
  }

  lemma RejectedStays(trace: seq<Exchange>, longer: seq<Exchange>, key: string, hash: string)
    requires trace <= longer && hash != "" && Redirected(trace, HashedPath(key, hash))
    ensures HashRejected(longer, key)
  {
    assert forall x <- trace :: x in longer;
  }

  /** How many reads of path there are. */
  function Count(trace: seq<Exchange>, path: string): nat {
    if trace == [] then 0
    else Count(trace[..|trace| - 1], path) + if trace[|trace| - 1].path == path then 1 else 0
  }

  /**
    Every read is admitted, a hashed read is by the hash of the latest root and never one the
    server already redirected, and nothing follows the read of the version.
   */
  predicate Orderly(trace: seq<Exchange>, key: string) {
    trace == [] ||
    var before, x := trace[..|trace| - 1], trace[|trace| - 1];
    && Orderly(before, key)
    && Admit(key, x.path)
    && (x.path == ROOT_PATH || x.path == DocPath(key) || x.path == VERSION_PATH
        || (x.path == HashedPath(key, LatestHash(before, key)) && !Redirected(before, x.path)))
    && Count(before, VERSION_PATH) == 0
    && (Count(before, DocPath(key)) > 0 ==> x.path == VERSION_PATH)
  }

  /** This document answered 200 to a read by this hash, or by no hash when it is empty. */
  predicate ReadBy(trace: seq<Exchange>, key: string, hash: string, doc: Document, sha: string) {
    exists x <- trace ::
      x.path == HashedPath(key, hash) && Ok(x) && x.reply.body.doc == Some(doc) && x.reply.body.sha == sha
  }

  function Snoc(trace: seq<Exchange>, x: Exchange): (r: seq<Exchange>)
    ensures r != [] && r[..|r| - 1] == trace && r[|r| - 1] == x
  {
    trace + [x]
  }

  /** Every entry the cache holds was put with a NUL-free document key and hash. */
  ghost predicate Trusted(puts: seq<Entry>) {
    forall e <- puts :: exists id, key :: NulFree(key) && NulFree(e.hash) && e.key == Key(id, key, e.hash)
  }

  lemma HashIsNulFree(hash: string)
    requires ValidHash(hash)
    ensures NulFree(hash)
  {
  }

  lemma TrustPut(puts: seq<Entry>, identity: string, key: string, e: Entry)
    requires Trusted(puts) && NulFree(key) && ValidHash(e.hash)
    ensures Trusted(puts + [Stamped(identity, key, e)])
  {
    HashIsNulFree(e.hash);
  }

  /** A cached entry found under a key was put for this identity, this document and this hash. */
  lemma HitHasHash(puts: seq<Entry>, identity: string, key: string, hash: string, e: Entry)
    requires Trusted(puts) && NulFree(key) && ValidHash(hash)
    requires LastPut(puts, Key(identity, key, hash)) == Some(e)
    ensures e.hash == hash
  {
    LastPutIn(puts, Key(identity, key, hash));
    HashIsNulFree(hash);
    var id, k :| NulFree(k) && NulFree(e.hash) && e.key == Key(id, k, e.hash);
    KeyInjective(identity, key, hash, id, k, e.hash);
  }

  // ---- What one more read changes -------------------------------------------

  lemma RedirectedSnoc(trace: seq<Exchange>, x: Exchange, path: string)
    ensures Redirected(Snoc(trace, x), path) <==>
              Redirected(trace, path) || (x.path == path && x.reply.Answered? && x.reply.status == 301)
  {
    var after := Snoc(trace, x);
    assert forall y :: y in after <==> y in trace || y == x;
  }

  /** The reads so far leave the document and the version to be read. */
  predicate Open(trace: seq<Exchange>, key: string) {
    Orderly(trace, key) && Count(trace, VERSION_PATH) == 0 && Count(trace, DocPath(key)) == 0
  }

  lemma RootStep(trace: seq<Exchange>, x: Exchange, key: string)
    requires Open(trace, key) && x.path == ROOT_PATH
    ensures Open(Snoc(trace, x), key)
    ensures Count(Snoc(trace, x), ROOT_PATH) == Count(trace, ROOT_PATH) + 1
    ensures RootRead(x, key) ==> LatestRoot(Snoc(trace, x), key) == x.reply.body.root
    ensures forall hash ::
              Redirected(Snoc(trace, x), HashedPath(key, hash)) ==> Redirected(trace, HashedPath(key, hash))
  {
    HashedIsAdmitted(key, "");
    forall hash | Redirected(Snoc(trace, x), HashedPath(key, hash))
      ensures Redirected(trace, HashedPath(key, hash))
    {
      RedirectedSnoc(trace, x, HashedPath(key, hash));
      assert |HashedPath(key, hash)| > |ROOT_PATH|;
    }
  }

  lemma DocumentStep(trace: seq<Exchange>, x: Exchange, key: string, hash: string)
    requires Open(trace, key) && x.path == HashedPath(key, hash)
    requires hash == "" || (ValidHash(hash) && hash == LatestHash(trace, key))
    requires hash != "" ==> !Redirected(trace, x.path)
    ensures var after := Snoc(trace, x);
            && Orderly(after, key) && Count(after, VERSION_PATH) == 0 && (hash != "" ==> Open(after, key))
            && Count(after, ROOT_PATH) == Count(trace, ROOT_PATH)
            && LatestRoot(after, key) == LatestRoot(trace, key)
  {
    HashedIsAdmitted(key, hash);
  }

  lemma VersionStep(trace: seq<Exchange>, x: Exchange, key: string)
    requires Orderly(trace, key) && Count(trace, VERSION_PATH) == 0 && x.path == VERSION_PATH
    ensures var after := Snoc(trace, x);
            && Orderly(after, key)
            && Count(after, ROOT_PATH) == Count(trace, ROOT_PATH)
            && LatestRoot(after, key) == LatestRoot(trace, key)
  {
    HashedIsAdmitted(key, "");
  }

  /** Different hashes have different paths. */
  lemma PathsDiffer(key: string, a: string, b: string)
    requires a != b
    ensures HashedPath(key, a) != HashedPath(key, b)
  {
    var front := DocPath(key) + HASH_QUERY;
    assert a != "" ==> HashedPath(key, a)[|front|..] == a;
    assert b != "" ==> HashedPath(key, b)[|front|..] == b;
  }

  lemma RedirectsOf(trace: seq<Exchange>, x: Exchange, key: string, hash: string)
    requires x.path == HashedPath(key, hash)
    ensures forall h | h != hash ::
              Redirected(Snoc(trace, x), HashedPath(key, h)) ==> Redirected(trace, HashedPath(key, h))
    ensures x.reply.Answered? && x.reply.status == 301 ==> Redirected(Snoc(trace, x), x.path)
  {
    forall h | h != hash
      ensures Redirected(Snoc(trace, x), HashedPath(key, h)) ==> Redirected(trace, HashedPath(key, h))
    {
      PathsDiffer(key, h, hash);
      RedirectedSnoc(trace, x, HashedPath(key, h));
    }
    RedirectedSnoc(trace, x, x.path);
  }

  // ---- One lookup -----------------------------------------------------------

  /** A document read that answered 200. */
  datatype Got = Got(doc: Document, sha: string, hash: string, observedAt: string)

  function Texts(limits: seq<string>): seq<Limitation> {
    seq(|limits|, i requires 0 <= i < |limits| => OfDocument(limits[i]))
  }

  /** What an answer may claim after the reads of trace. */
  predicate Honest(r: Result, trace: seq<Exchange>, key: string, identity: string) {
    match r
    case Reference(source, limits) =>
      && source.target == identity
      && source.document == DocPath(key)
      && (source.serverHash == "" <==> NoHash in limits || Changed in limits)
      && (source.serverHash != "" ==> source.serverHash == LatestHash(trace, key))
      && (NoHash in limits ==> LatestHash(trace, key) == "")
      && (Changed in limits ==> HashRejected(trace, key))
      && (source.version == "" <==> NoVersion in limits)
    case Unavailable(Missing(canonical)) =>
      LatestRoot(trace, key).Some? && canonical == Canonical(LatestRoot(trace, key).value, key)
    case _ => true
  }

  /**
    A lookup that ends without a document says what its last read came to, or that the context is done.
    What one with a document says is in Grounded.
   */
  predicate Justified(r: Result, trace: seq<Exchange>, key: string, done: bool) {
    if r == Unavailable(ContextDone) then done
    else if r.Reference? || r.OperationNotFound? then true
    else
      trace != [] &&
      var x := trace[|trace| - 1];
      var whole := x.reply.Answered? && !x.reply.truncated;
      match r
      case NotListed =>
        x.path == ROOT_PATH && Ok(x) && x.reply.body.root.Some? && Lookup(x.reply.body.root.value, key).None?
      case Unavailable(ReadFailed(path)) => x.path == path && x.reply.Failed?
      case Unavailable(Exceeded(path)) => x.path == path && x.reply.Answered? && x.reply.truncated
      case Unavailable(NoV3) => x.path == ROOT_PATH && whole && x.reply.status == 404
      case Unavailable(StatusWas(path, status)) => x.path == path && whole && x.reply.status == status != 200
      case Unavailable(RootRefused) => x.path == ROOT_PATH && Ok(x) && x.reply.body.root.None?
      case Unavailable(DocumentRefused) => x.path != ROOT_PATH && Ok(x) && x.reply.body.doc.None?
      case Unavailable(Missing(_)) =>
        x.path != ROOT_PATH && whole && (x.reply.status == 404 || (x.reply.status == 200 && x.reply.body.empty))
      case _ => false
  }

  /** The version a read of it shows, empty when it shows none of usable form. */
  function VersionIn(x: Exchange): string {
    if Ok(x) && UsableVersion(x.reply.body.gitVersion) then x.reply.body.gitVersion else ""
  }

  /**
    An answer may be taken from this entry: the document was read here by the hash, and the version last; or
    it is the last one cached for this identity, this document and the hash the root now publishes.
   */
  predicate AtHand(e: Entry, trace: seq<Exchange>, cached: seq<Entry>, key: string, identity: string) {
    || (&& ReadBy(trace, key, e.hash, e.doc, e.sha)
        && trace[|trace| - 1].path == VERSION_PATH && e.version == VersionIn(trace[|trace| - 1]))
    || (e.hash != "" && e.hash == LatestHash(trace, key) && LastPut(cached, Key(identity, key, e.hash)) == Some(e))
  }

  /** The answer is what the entry says of the operation: its facts, or that it does not have it. */
  predicate Tells(r: Result, e: Entry, operation: string) {
    if operation in e.doc.operations then
      && r.Reference?
      && r.source.sha == e.sha && r.source.version == e.version && r.source.serverHash == e.hash
      && Texts(e.doc.operations[operation]) <= r.limitations
    else r.OperationNotFound?
  }

  /** A reference, and the answer that there is no such operation, are what a document at hand says. */
  ghost predicate Grounded(r: Result, trace: seq<Exchange>, cached: seq<Entry>, key: string, identity: string,
                           operation: string)
  {
    r.Reference? || r.OperationNotFound? ==>
      exists e: Entry :: AtHand(e, trace, cached, key, identity) && Tells(r, e, operation)
  }

  /** What the limitations a run collects stand for. */
  predicate Learned(limits: seq<Limitation>, trace: seq<Exchange>, key: string) {
    && NoVersion !in limits
    && (NoHash in limits ==> LatestHash(trace, key) == "")
    && (Changed in limits ==> HashRejected(trace, key))
  }

  predicate ReadFresh(limits: seq<Limitation>) { NoHash in limits || Changed in limits }

  lemma LearnedAfter(limits: seq<Limitation>, trace: seq<Exchange>, longer: seq<Exchange>, key: string)
    requires Learned(limits, trace, key) && trace <= longer && LatestRoot(longer, key) == LatestRoot(trace, key)
    ensures Learned(limits, longer, key)
  {
    if Changed in limits {
      var x :| x in trace && x.path != DocPath(key) && Redirected(trace, x.path);
      assert forall y <- trace :: y in longer;
    }
  }

  lemma ReadByAfter(trace: seq<Exchange>, longer: seq<Exchange>, key: string, got: Got)
    requires ReadBy(trace, key, got.hash, got.doc, got.sha) && trace <= longer
    ensures ReadBy(longer, key, got.hash, got.doc, got.sha)
  {
    assert forall y <- trace :: y in longer;
  }

  /** What a lookup may add to the cache. */
  ghost predicate CachedByHash(puts: seq<Entry>, before: seq<Entry>, trace: seq<Exchange>, key: string,
                               identity: string)
  {
    puts == before ||
    exists e: Entry ::
      && puts == before + [Stamped(identity, key, e)]
      && ReadBy(trace, key, e.hash, e.doc, e.sha) && ValidHash(e.hash) && e.hash == LatestHash(trace, key)
  }

  predicate Misses(entries: seq<Entry>, identity: string, key: string, hash: string) {
    forall x <- entries :: x.key != Key(identity, key, hash)
  }

  class Recipe {
    const identity: string
    const key: string
    const operation: string
    const refs: Cache
    var canonical: bool
    var limitations: seq<Limitation>
    ghost var trace: seq<Exchange>
    /** A context check has answered done. */
    ghost var done: bool

    ghost predicate Valid()
      reads this, refs
    {
      refs.Valid() && Trusted(refs.puts) && NulFree(key)
    }

    constructor (identity: string, key: string, operation: string, refs: Cache)
      requires refs.Valid() && Trusted(refs.puts) && NulFree(key)
      ensures Valid() && trace == [] && !done && limitations == []
      ensures this.identity == identity && this.key == key && this.operation == operation && this.refs == refs
    {
      this.identity, this.key, this.operation, this.refs := identity, key, operation, refs;
      canonical, limitations, trace, done := false, [], [], false;
    }

    /** checkContext: the context may end at any time. */
    method CheckContext() returns (stop: Option<Result>)
      modifies this`done
      ensures stop.Some? <==> done
      ensures stop.Some? ==> stop.value == Unavailable(ContextDone)
    {
      var ended: bool := *;
      done := ended;
      return if ended then Some(Unavailable(ContextDone)) else None;
    }

    /** One exchange with the server; never after a check that answered done. */
    method Exchanged(path: string) returns (reply: Reply)
      requires !done && Admit(key, path)
      modifies this`trace
      ensures trace == Snoc(old(trace), Exchange(path, reply))
    {
      reply := *;
      trace := Snoc(trace, Exchange(path, reply));
    }

    method Read(path: string) returns (reply: Reply, stop: Option<Result>)
      requires !done && Admit(key, path)
      modifies this`trace, this`done
      ensures trace == Snoc(old(trace), Exchange(path, reply))
      ensures stop.None? ==> !done && reply.Answered? && !reply.truncated
      ensures stop.Some? ==> stop.value.Unavailable? && !stop.value.reason.Missing?
      ensures stop.Some? ==> Justified(stop.value, trace, key, done)
    {
      reply := Exchanged(path);
      stop := CheckContext();
      if stop.Some? {
        return;
      }
      if reply.Failed? {
        return reply, Some(Unavailable(ReadFailed(path)));
      }
      if reply.truncated {
        return reply, Some(Unavailable(Exceeded(path)));
      }
    }

    /** root: the hash the root publishes for this key, empty when it has no usable one. */
    method ReadRoot() returns (hash: string, stop: Option<Result>)
      requires !done && Open(trace, key)
      modifies this`trace, this`done, this`canonical
      ensures |trace| == |old(trace)| + 1 && trace[..|old(trace)|] == old(trace)
      ensures Open(trace, key) && Count(trace, ROOT_PATH) == Count(old(trace), ROOT_PATH) + 1
      ensures forall h :: Redirected(trace, HashedPath(key, h)) ==> Redirected(old(trace), HashedPath(key, h))
      ensures stop.None? ==> !done && LatestRoot(trace, key).Some? && hash == LatestHash(trace, key)
      ensures stop.None? ==> canonical == Canonical(LatestRoot(trace, key).value, key)
      ensures stop.None? ==> hash == "" || ValidHash(hash)
      ensures stop.Some? ==> stop.value.NotListed? || (stop.value.Unavailable? && !stop.value.reason.Missing?)
      ensures stop.Some? ==> Justified(stop.value, trace, key, done)
    {
      hide Open, Orderly, Count, Redirected, LatestRoot, Canonical;
      hash := "";
      var reply;
      reply, stop := Read(ROOT_PATH);
      RootStep(old(trace), Exchange(ROOT_PATH, reply), key);
      if stop.Some? {
        return;
      }
      if reply.status == 404 {
        return "", Some(Unavailable(NoV3));
      }
      if reply.status != 200 {
        return "", Some(Unavailable(StatusWas(ROOT_PATH, reply.status)));
      }
      stop := CheckContext();
      if stop.Some? {
        return;
      }
      if reply.body.root.None? {
        return "", Some(Unavailable(RootRefused));
      }
      var listed := Lookup(reply.body.root.value, key);
      if listed.None? {
        return "", Some(NotListed);
      }
      canonical := Canonical(reply.body.root.value, key);
      return listed.value, None;
    }

    /** document: a read by hash, or a plain one. A redirect of a hashed read is neither an answer nor a stop. */
    method Document(hash: string) returns (got: Option<Got>, stop: Option<Result>)
      requires !done && Open(trace, key)
      requires LatestRoot(trace, key).Some? && canonical == Canonical(LatestRoot(trace, key).value, key)
      requires hash == "" || (ValidHash(hash) && hash == LatestHash(trace, key))
      requires hash != "" ==> !Redirected(trace, HashedPath(key, hash))
      modifies this`trace, this`done
      ensures |trace| == |old(trace)| + 1 && trace[..|old(trace)|] == old(trace)
      ensures Orderly(trace, key) && Count(trace, VERSION_PATH) == 0 && (hash != "" ==> Open(trace, key))
      ensures Count(trace, ROOT_PATH) == Count(old(trace), ROOT_PATH)
      ensures LatestRoot(trace, key) == LatestRoot(old(trace), key)
      ensures got.Some? ==> !done && stop.None? && got.value.hash == hash
      ensures got.Some? ==> ReadBy(trace, key, hash, got.value.doc, got.value.sha)
      ensures got.None? && stop.None? ==> !done && hash != "" && Redirected(trace, HashedPath(key, hash))
      ensures forall h | h != hash ::
                Redirected(trace, HashedPath(key, h)) ==> Redirected(old(trace), HashedPath(key, h))
      ensures stop.Some? ==> stop.value.Unavailable? && Honest(stop.value, trace, key, identity)
      ensures stop.Some? ==> Justified(stop.value, trace, key, done)
    {
      got := None;
      var path := HashedPath(key, hash);
      HashedIsAdmitted(key, hash);
      hide Open, Orderly, Count, Redirected, LatestRoot, Canonical, Admit, HashedPath, Justified, LatestHash;
      var reply;
      reply, stop := Read(path);
      DocumentStep(old(trace), Exchange(path, reply), key, hash);
      RedirectsOf(old(trace), Exchange(path, reply), key, hash);
      if stop.None? {
        got, stop := JudgeDocument(hash, path, reply);
      }
    }

    /** The rest of document, once a whole reply is in. */
    method JudgeDocument(hash: string, path: string, reply: Reply) returns (got: Option<Got>, stop: Option<Result>)
      requires !done && reply.Answered? && !reply.truncated
      requires trace != [] && trace[|trace| - 1] == Exchange(path, reply)
      requires path == HashedPath(key, hash) && path != ROOT_PATH
      requires LatestRoot(trace, key).Some? && canonical == Canonical(LatestRoot(trace, key).value, key)
      modifies this`done
      ensures got.Some? ==> !done && stop.None? && got.value.hash == hash
      ensures got.Some? ==> ReadBy(trace, key, hash, got.value.doc, got.value.sha)
      ensures got.None? && stop.None? <==> hash != "" && reply.status == 301
      ensures got.None? && stop.None? ==> !done
      ensures stop.Some? ==> stop.value.Unavailable? && Honest(stop.value, trace, key, identity)
      ensures stop.Some? ==> Justified(stop.value, trace, key, done)
    {
      hide LatestRoot, Canonical, HashedPath;
      assert trace[|trace| - 1] in trace;
      got, stop := None, None;
      if reply.status == 301 && hash != "" {
        return;
      }
      if reply.status == 404 || (reply.status == 200 && reply.body.empty) {
        return None, Some(Unavailable(Missing(canonical)));
      }
      if reply.status != 200 {
        return None, Some(Unavailable(StatusWas(path, reply.status)));
      }
      stop := CheckContext();
      if stop.Some? {
        return;
      }
      if reply.body.doc.None? {
        return None, Some(Unavailable(DocumentRefused));
      }
      var observedAt: string := *;
      return Some(Got(reply.body.doc.value, reply.body.sha, hash, observedAt)), None;
    }

    /** version: any ordinary failure leaves it empty. */
    method Version() returns (version: string)
      requires !done && Orderly(trace, key) && Count(trace, VERSION_PATH) == 0
      modifies this`trace
      ensures |trace| == |old(trace)| + 1 && trace[..|old(trace)|] == old(trace)
      ensures Orderly(trace, key)
      ensures Count(trace, ROOT_PATH) == Count(old(trace), ROOT_PATH)
      ensures LatestRoot(trace, key) == LatestRoot(old(trace), key)
      ensures trace[|trace| - 1].path == VERSION_PATH && version == VersionIn(trace[|trace| - 1])
    {
      hide Orderly, Count, LatestRoot, UsableVersion;
      var reply := Exchanged(VERSION_PATH);
      VersionStep(old(trace), Exchange(VERSION_PATH, reply), key);
      if reply.Failed? || reply.status != 200 || reply.truncated {
        return "";
      }
      if !UsableVersion(reply.body.gitVersion) {
        return "";
      }
      return reply.body.gitVersion;
    }

    /** answer: look the operation up and add what this run learned. */
    method Answer(e: Entry) returns (r: Result)
      requires Learned(limitations, trace, key)
      requires e.hash == "" <==> ReadFresh(limitations)
      requires e.hash != "" ==> e.hash == LatestHash(trace, key)
      ensures Honest(r, trace, key, identity)
      ensures r.Reference? <==> operation in e.doc.operations
      ensures r.Reference? ==> r.source.sha == e.sha && r.source.version == e.version && r.source.serverHash == e.hash
      ensures r.Reference? ==>
                r.limitations == Texts(e.doc.operations[operation]) + limitations +
                                 (if e.version == "" then [NoVersion] else [])
      ensures Tells(r, e, operation)
    {
      if operation !in e.doc.operations {
        return OperationNotFound;
      }
      var source := Source(identity, DocPath(key), e.version, e.sha, e.hash);
      var limits := Texts(e.doc.operations[operation]) + limitations;
      if e.version == "" {
        limits := limits + [NoVersion];
      }
      return Reference(source, limits);
    }

    /** The answer of the entry cached for this hash, if there is one. */
    method Cached(hash: string) returns (r: Option<Result>)
      requires Valid() && limitations == []
      requires ValidHash(hash) && hash == LatestHash(trace, key)
      ensures r.Some? ==> r.value.Reference? || r.value.OperationNotFound?
      ensures r.Some? ==> Honest(r.value, trace, key, identity)
      ensures r.Some? ==> Grounded(r.value, trace, refs.puts, key, identity, operation)
      ensures r.None? ==> Misses(refs.entries, identity, key, hash)
    {
      hide LatestHash, Honest, Tells, Trusted, NulFree;
      var hit := refs.Get(identity, key, hash);
      if hit.None? {
        return None;
      }
      HitHasHash(refs.puts, identity, key, hash, hit.value);
      var answer := Answer(hit.value);
      assert AtHand(hit.value, trace, refs.puts, key, identity);
      return Some(answer);
    }

    /** finish: a last read, for the version; then the entry, cached only under a hash, is the answer. */
    method Finish(got: Got) returns (r: Result)
      requires Valid() && !done && Orderly(trace, key) && Count(trace, VERSION_PATH) == 0
      requires ReadBy(trace, key, got.hash, got.doc, got.sha)
      requires Learned(limitations, trace, key)
      requires got.hash == "" <==> ReadFresh(limitations)
      requires got.hash != "" ==> ValidHash(got.hash) && got.hash == LatestHash(trace, key)
      modifies this`trace, this`done, refs
      ensures Valid() && Orderly(trace, key) && |trace| == |old(trace)| + 1 && old(trace) <= trace
      ensures Count(trace, ROOT_PATH) == Count(old(trace), ROOT_PATH)
      ensures Honest(r, trace, key, identity)
      ensures CachedByHash(refs.puts, old(refs.puts), trace, key, identity)
      ensures got.hash == "" ==> refs.puts == old(refs.puts)
      ensures r == Unavailable(ContextDone) <==> done
      ensures Grounded(r, trace, [], key, identity, operation)
      ensures !done ==> (r.Reference? <==> operation in got.doc.operations) && (r.Reference? || r.OperationNotFound?)
      ensures r.Reference? ==>
                && r.source.version == VersionIn(trace[|trace| - 1]) && r.source.sha == got.sha
                && r.source.serverHash == got.hash && forall l <- limitations :: l in r.limitations
    {
      hide Orderly, Count, Learned, LatestRoot, Trusted, ReadBy, HashRejected;
      var version := Version();
      LearnedAfter(limitations, old(trace), trace, key);
      ReadByAfter(old(trace), trace, key, got);
      var stop := CheckContext();
      if stop.Some? {
        return stop.value;
      }
      var e := Entry(got.doc, version, got.observedAt, got.sha, got.hash, "", 0);
      if got.hash != "" {
        refs.Put(identity, key, e);
        TrustPut(old(refs.puts), identity, key, e);
      }
      r := Answer(e);
      assert AtHand(e, trace, [], key, identity);
    }

    /** fetch: the document without a hash, then the answer; the limitations say why. */
    method Fetch() returns (r: Result)
      requires Valid() && !done && Open(trace, key)
      requires LatestRoot(trace, key).Some? && canonical == Canonical(LatestRoot(trace, key).value, key)
      requires Learned(limitations, trace, key) && ReadFresh(limitations)
      modifies this`trace, this`done, refs
      ensures Valid() && Orderly(trace, key) && |trace| <= |old(trace)| + 2 && old(trace) <= trace
      ensures Count(trace, ROOT_PATH) == Count(old(trace), ROOT_PATH)
      ensures Justified(r, trace, key, done)
      ensures Grounded(r, trace, [], key, identity, operation)
      ensures Honest(r, trace, key, identity)
      ensures r.Reference? ==> forall l <- limitations :: l in r.limitations
      ensures refs.puts == old(refs.puts)
    {
      var got, stop := Document("");
      assert forall x <- old(trace) :: x in trace;
      if stop.Some? {
        return stop.value;
      }
      r := Finish(got.value);
    }

    /** unhashed: the hash the server published no longer answers, so the document is read fresh. */
    method Unhashed() returns (r: Result)
      requires Valid() && !done && Open(trace, key)
      requires LatestRoot(trace, key).Some? && canonical == Canonical(LatestRoot(trace, key).value, key)
      requires limitations == []
      requires HashRejected(trace, key)
      modifies this`trace, this`done, this`limitations, refs
      ensures Valid() && Orderly(trace, key) && |trace| <= |old(trace)| + 2 && old(trace) <= trace
      ensures Count(trace, ROOT_PATH) == Count(old(trace), ROOT_PATH)
      ensures Justified(r, trace, key, done)
      ensures Grounded(r, trace, [], key, identity, operation)
      ensures Honest(r, trace, key, identity)
      ensures r.Reference? ==> Changed in r.limitations && r.source.serverHash == ""
      ensures refs.puts == old(refs.puts)
    {
      limitations := limitations + [Changed];
      r := Fetch();
    }

    /**
      run: at most six reads, every one admitted; nothing is cached but a document read by the
      hash it is cached under; the answer names the hash it was read by, or says why it has none.
     */
    method Run() returns (r: Result)
      requires Valid() && !done && trace == [] && limitations == []
      modifies this, refs
      ensures Valid() && Orderly(trace, key)
      ensures |trace| <= 6 && Count(trace, ROOT_PATH) <= 2
      ensures Justified(r, trace, key, done)
      ensures Grounded(r, trace, old(refs.puts), key, identity, operation)
      ensures Honest(r, trace, key, identity)
      ensures CachedByHash(refs.puts, old(refs.puts), trace, key, identity)
      ensures |trace| > 1 ==>
                var hash := LatestHash(trace[..1], key); hash == "" || Misses(old(refs.entries), identity, key, hash)
    {
      assert Open(trace, key) && Count(trace, ROOT_PATH) == 0;
      assert forall h :: !Redirected(trace, HashedPath(key, h));
      hide Open, Orderly, Count, Canonical, LatestRoot, Redirected, HashRejected, Trusted, HashedPath, Justified,
           Honest, Learned, ReadBy, Misses, Grounded, LatestHash, CachedByHash;
      var hash, stop := ReadRoot();
      ghost var first := trace;
      if stop.Some? {
        return stop.value;
      }
      if hash == "" {
        limitations := limitations + [NoHash];
        r := Fetch();
        assert trace[..1] == first;
        return;
      }
      var hit := Cached(hash);
      if hit.Some? {
        return hit.value;
      }
      r := ReadHashed(hash);
      assert trace[..1] == first;
    }

    /** The rest of run, when the cache has nothing by the hash of the root just read. */
    method ReadHashed(hash: string) returns (r: Result)
      requires Valid() && !done && Open(trace, key) && limitations == []
      requires |trace| == 1 && Count(trace, ROOT_PATH) == 1
      requires ValidHash(hash) && LatestRoot(trace, key).Some? && hash == LatestHash(trace, key)
      requires canonical == Canonical(LatestRoot(trace, key).value, key)
      requires forall h :: !Redirected(trace, HashedPath(key, h))
      modifies this, refs
      ensures Valid() && Orderly(trace, key) && old(trace) <= trace
      ensures |trace| <= 6 && Count(trace, ROOT_PATH) <= 2
      ensures Justified(r, trace, key, done)
      ensures Grounded(r, trace, old(refs.puts), key, identity, operation)
      ensures Honest(r, trace, key, identity)
      ensures CachedByHash(refs.puts, old(refs.puts), trace, key, identity)
    {
      hide Open, Orderly, Count, Canonical, LatestRoot, Redirected, HashRejected, Trusted, HashedPath;
      var got, stop := Document(hash);
      if stop.Some? {
        return stop.value;
      }
      if got.Some? {
        r := Finish(got.value);
        return;
      }
      r := Reread(hash);
    }

    /** The rest of run, once the server redirected the hash: the root is read again, once. */
    method Reread(hash: string) returns (r: Result)
      requires Valid() && !done && Open(trace, key) && limitations == []
      requires |trace| == 2 && Count(trace, ROOT_PATH) <= 1
      requires hash != "" && Redirected(trace, HashedPath(key, hash))
      requires forall h | h != hash :: !Redirected(trace, HashedPath(key, h))
      modifies this, refs
      ensures Valid() && Orderly(trace, key) && old(trace) <= trace
      ensures |trace| <= 6 && Count(trace, ROOT_PATH) <= 2
      ensures Justified(r, trace, key, done)
      ensures Grounded(r, trace, old(refs.puts), key, identity, operation)
      ensures Honest(r, trace, key, identity)
      ensures CachedByHash(refs.puts, old(refs.puts), trace, key, identity)
    {
      hide Orderly, Count, Canonical, LatestRoot, Redirected, HashRejected, Trusted, HashedPath;
      ghost var before := trace;
      var h2, stop := ReadRoot();
      assert before <= trace;
      RejectedStays(before, trace, key, hash);
      if stop.Some? {
        return stop.value;
      }
      if h2 == "" || h2 == hash {
        r := Unhashed();
        return;
      }
      var hit := Cached(h2);
      if hit.Some? {
        return hit.value;
      }
      var got;
      got, stop := Document(h2);
      if stop.Some? {
        return stop.value;
      }
      if got.Some? {
        r := Finish(got.value);
        return;
      }
      RejectedStays(before, trace, key, hash);
      r := Unhashed();
    }
  }
}
