/** The request handlers that change the tree or the cache, from the authenticated request on.
    Each returns the HTTP status it answers with. */
module Handlers {
  import opened Options
  import opened Statuses
  import opened Strings
  import opened Paths
  import opened Hosts
  import opened Tree
  import opened TreeEdits
  import opened Core
  import opened TreeRemoval
  import opened PathCache
  import opened Resolver
  import opened CacheSafety
  import opened Runs
  import opened Belief
  import opened CopyDiff
  import opened Transfers
  import opened Moves
  import opened Copies

  /** std::string::find(word) != npos. */
  predicate Mentions(text: string, word: string) {
    word <= text || (text != "" && Mentions(text[1..], word))
  }

  /** `word` stands somewhere in `text`. */
  predicate Occurs(text: string, word: string) {
    exists k :: 0 <= k <= |text| - |word| && word == text[k..][..|word|]
  }

  lemma {:induction false} MentionsExactly(text: string, word: string)
    ensures Mentions(text, word) <==> Occurs(text, word)
  {
    if word <= text {
      assert text[0..] == text && word == text[0..][..|word|];
    }
    if text != "" {
      MentionsExactly(text[1..], word);
      if Occurs(text[1..], word) {
        var k :| 0 <= k <= |text[1..]| - |word| && word == text[1..][k..][..|word|];
        assert text[1..][k..] == text[k + 1..];
      }
      if Occurs(text, word) && !(word <= text) {
        var k :| 0 <= k <= |text| - |word| && word == text[k..][..|word|];
        assert k > 0 && text[k..] == text[1..][k - 1..];
      }
    }
  }

  /** The status of a refused deletion. */
  function DeleteError(error: string): int {
    if Mentions(error, "permission") then FORBIDDEN else INTERNAL_ERROR
  }

  /** The status of a refused rename, move or copy. */
  function TransferError(error: string): int {
    if Mentions(error, "permission") then FORBIDDEN
    else if Mentions(error, "not exist") || Mentions(error, "not found") then NOT_FOUND
    else if Mentions(error, "already") then CONFLICT
    else INTERNAL_ERROR
  }

  /** What the core may be said to have answered. */
  const CORE_ERRORS := {FORBIDDEN, NOT_FOUND, CONFLICT, INTERNAL_ERROR}

  /** A transfer was refused, if at all, by the core, or before anything was touched. */
  predicate RefusedCleanly(failed: Option<int>, t: Tree, t': Tree) {
    failed.Some? ==>
      failed.value in CORE_ERRORS || (failed.value in {BAD_GATEWAY, PRECONDITION_FAILED} && t' == t)
  }

  /** What COPY does to contents: nothing, or every clone got its original's; the latter on success. */
  ghost predicate BroughtAlong(c: map<Uid, string>, c': map<Uid, string>, clone: map<Uid, Uid>, failed: Option<int>) {
    || (failed.Some? && c' == c)
    || (&& (forall v :: v in clone && v in c ==> clone[v] in c' && c'[clone[v]] == c[v])
        && (forall u :: u !in clone.Values ==> (u in c' <==> u in c) && (u in c ==> c'[u] == c[u])))
  }

  lemma CopiedIsBroughtAlong(c: map<Uid, string>, clone: map<Uid, Uid>, failed: Option<int>)
    requires Injective(clone)
    ensures BroughtAlong(c, ContentsCopied(c, clone), clone, failed)
  {
    var brought := Brought(c, clone);
    assert forall u :: u !in clone.Values ==> u !in brought;
  }

  /** A refused deletion is forbidden exactly if the core spoke of permission. */
  lemma DeleteErrorExactly(error: string)
    ensures DeleteError(error) == if Occurs(error, "permission") then 403 else 500
  {
    MentionsExactly(error, "permission");
  }

  /** So is a refused transfer; failing that it is a missing node, and failing that a taken name. */
  lemma TransferErrorExactly(error: string)
    ensures TransferError(error) ==
            if Occurs(error, "permission") then 403
            else if Occurs(error, "not exist") || Occurs(error, "not found") then 404
            else if Occurs(error, "already") then 409
            else 500
  {
    MentionsExactly(error, "permission");
    MentionsExactly(error, "not exist");
    MentionsExactly(error, "not found");
    MentionsExactly(error, "already");
  }

  /** A parsed Destination header. */
  datatype Destination = Destination(host: string, path: string)

  /** A Destination naming another host than the request's is refused. */
  predicate SameAuthority(host: string, destHost: string) {
    destHost == "" || ToLower(UpTo(host, ':')) == ToLower(destHost)
  }

  /** A Destination is on the request's host exactly if it names none, or that one in any case; the
      request's port does not matter. */
  lemma SameAuthorityExactly(host: string, port: string, destHost: string)
    requires ':' !in host
    ensures SameAuthority(host, destHost) <==> destHost == "" || SameButCase(host, destHost)
    ensures SameAuthority(host + ":" + port, destHost) <==> destHost == "" || SameButCase(host, destHost)
  {
    UpToExactly(host, ':', port);
    LoweredAlikeExactly(host, destHost);
  }

  /** Where no call fails: why the destination cannot be cleared, if it cannot. */
  ghost function ClearingRefusal(t: Tree, host: string, destHost: string, dest: seq<Segment>,
                                 overwrite: string): Option<int> {
    if !SameAuthority(host, destHost) then Some(BAD_GATEWAY)
    else if UncachedWalk(t, dest) in {None, Some(ROOT)} then None
    else if ForbidsOverwrite(overwrite) then Some(PRECONDITION_FAILED)
    else None
  }

  /** Where no call fails: why the source or its new parent cannot be found, if they cannot. */
  ghost function FindingRefusal(t: Tree, src: seq<Segment>, parent: seq<Segment>, needParent: bool): Option<int> {
    if UncachedWalk(t, src) in {None, Some(ROOT)} then Some(NOT_FOUND)
    else if needParent && UncachedWalk(t, parent).None? then Some(CONFLICT)
    else None
  }

  /** How far a transfer gets, where no call fails, before its own change. */
  ghost predicate Approached(t: Tree, t': Tree, host: string, src: string, destHost: string, dst: string,
                             overwrite: string, needParent: bool, failed: Option<int>, uid: Uid, parent: Uid) {
    match ClearingRefusal(t, host, destHost, Segments(dst), overwrite)
    case Some(e) => failed == Some(e) && t' == t
    case None =>
      && t' == ClearedTree(t, Segments(dst))
      && failed == FindingRefusal(t', Segments(src), Segments(ParentOf(dst)), needParent)
      && (failed.None? ==>
            && UncachedWalk(t', Segments(src)) == Some(uid)
            && (needParent ==> UncachedWalk(t', Segments(ParentOf(dst))) == Some(parent)))
  }

  /** How MOVE answers where no call fails. */
  ghost predicate MoveAnswer(t: Tree, host: string, src: string, destHost: string, dst: string, overwrite: string,
                             status: int, refusal: string) {
    var inPlace := ParentOf(src) == ParentOf(dst);
    var cleared := ClearedTree(t, Segments(dst));
    var parent := UncachedWalk(cleared, Segments(ParentOf(dst)));
    match ClearingRefusal(t, host, destHost, Segments(dst), overwrite)
    case Some(e) => status == e
    case None =>
      match FindingRefusal(cleared, Segments(src), Segments(ParentOf(dst)), !inPlace)
      case Some(e) => status == e
      case None =>
        if CanRelocate(cleared, UncachedWalk(cleared, Segments(src)).value, inPlace,
                       if inPlace then ROOT else parent.value, NameOf(src), NameOf(dst))
        then status == CREATED else status == TransferError(refusal)
  }

  /** How COPY answers where no call fails. */
  ghost predicate CopyAnswer(t: Tree, host: string, src: string, destHost: string, dst: string, overwrite: string,
                             failed: Option<int>, refusal: string) {
    var cleared := ClearedTree(t, Segments(dst));
    match ClearingRefusal(t, host, destHost, Segments(dst), overwrite)
    case Some(e) => failed == Some(e)
    case None =>
      match FindingRefusal(cleared, Segments(src), Segments(ParentOf(dst)), true)
      case Some(e) => failed == Some(e)
      case None =>
        if CanCopy(cleared, UncachedWalk(cleared, Segments(ParentOf(dst))).value, NameOf(src), NameOf(dst))
        then failed.None? else failed == Some(TransferError(refusal))
  }

  /** What the Overwrite header decides where the destination exists, on the request's own host and
      with no call failing: a header starting with F or f refuses with 412 and touches nothing, and
      any other, an empty one included, has the whole destination removed. */
  ghost predicate OverwriteRule(t: Tree, t': Tree, to: seq<Segment>, overwrite: string, status: int) {
    match UncachedWalk(t, to)
    case None => status != PRECONDITION_FAILED
    case Some(top) =>
      top != ROOT ==>
        && (status == PRECONDITION_FAILED <==> overwrite != "" && overwrite[0] in {'F', 'f'})
        && (if overwrite != "" && overwrite[0] in {'F', 'f'} then t' == t else Subtree(t, top) !! t'.Keys)
  }

  lemma OverwriteIsRuled(t: Tree, t': Tree, host: string, destHost: string, to: seq<Segment>, overwrite: string,
                         status: int)
    requires SameAuthority(host, destHost)
    requires match ClearingRefusal(t, host, destHost, to, overwrite)
             case Some(e) => status == e && t' == t
             case None =>
               && status != PRECONDITION_FAILED
               && forall u :: u in t ==> (u in t' <==> u in ClearedTree(t, to))
    ensures OverwriteRule(t, t', to, overwrite, status)
  {
  }

  lemma AnswerOfMove(t: Tree, mid: Tree, host: string, src: string, destHost: string, dst: string, overwrite: string,
                     failed: Option<int>, uid: Uid, parent: Uid, status: int, refusal: string)
    requires var needParent := ParentOf(src) != ParentOf(dst);
             Approached(t, mid, host, src, destHost, dst, overwrite, needParent, failed, uid, parent)
    requires failed.Some? ==> status == failed.value
    requires failed.None? ==>
      var inPlace := ParentOf(src) == ParentOf(dst);
      && (status == CREATED <==>
            CanRelocate(mid, uid, inPlace, if inPlace then ROOT else parent, NameOf(src), NameOf(dst)))
      && (status != CREATED ==> status == TransferError(refusal))
    ensures MoveAnswer(t, host, src, destHost, dst, overwrite, status, refusal)
    ensures ClearingRefusal(t, host, destHost, Segments(dst), overwrite).None? ==> mid == ClearedTree(t, Segments(dst))
  {
  }

  /** The core lets a node of this name arrive under `parent`. */
  ghost predicate Creatable(t: Tree, parent: Uid, name: string) {
    IsDirectory(t, parent) && GoodName(name) && !NameTaken(t, parent, name, ROOT)
  }

  function ChildHrefs(path: string, es: seq<Entry>): seq<string> {
    if es == [] then [] else ChildHrefs(path, es[..|es| - 1]) + [ChildPath(path, es[|es| - 1].name)]
  }

  /** The hrefs of an answer: the target's own, then one for every entry. */
  ghost predicate HrefsFit(path: string, es: seq<Entry>, hrefs: seq<string>) {
    && |hrefs| == |es| + 1 && hrefs[0] == StripSlash(path)
    && forall i :: 0 <= i < |es| ==> IsChildHref(path, es[i].name, hrefs[i + 1])
  }

  lemma ListedNamesAreGood(t: Tree, dir: Uid, es: seq<Entry>)
    requires WellFormed(t) && (es != [] ==> IsListing(t, dir, es))
    ensures forall i :: 0 <= i < |es| ==> GoodName(es[i].name)
  {
    forall i | 0 <= i < |es|
      ensures GoodName(es[i].name)
    {
      assert Lists(t, dir, es[i]) && NodeFits(t, es[i].uid);
    }
  }

  lemma HrefsFitOneMore(path: string, es: seq<Entry>, before: seq<string>, href: string)
    requires es != [] && HrefsFit(path, es[..|es| - 1], before) && IsChildHref(path, es[|es| - 1].name, href)
    ensures HrefsFit(path, es, before + [href])
  {
    var all, last := before + [href], |es| - 1;
    forall i | 0 <= i < |es|
      ensures IsChildHref(path, es[i].name, all[i + 1])
    {
      if i < last {
        assert es[..last][i] == es[i] && all[i + 1] == before[i + 1];
      }
    }
  }

  lemma {:induction false} HrefsAreRight(path: string, es: seq<Entry>)
    requires forall i :: 0 <= i < |es| ==> GoodName(es[i].name)
    ensures HrefsFit(path, es, [StripSlash(path)] + ChildHrefs(StripSlash(path), es))
  {
    if es != [] {
      var last := |es| - 1;
      var before := [StripSlash(path)] + ChildHrefs(StripSlash(path), es[..last]);
      HrefsAreRight(path, es[..last]);
      ChildPathIsHref(path, es[last].name);
      HrefsFitOneMore(path, es, before, ChildPath(StripSlash(path), es[last].name));
      assert [StripSlash(path)] + ChildHrefs(StripSlash(path), es) ==
             before + [ChildPath(StripSlash(path), es[last].name)];
    }
  }

  lemma {:induction false} HrefsGrow(path: string, es: seq<Entry>, e: Entry)
    ensures ChildHrefs(path, es + [e]) == ChildHrefs(path, es) + [ChildPath(path, e.name)]
  {
    assert (es + [e])[..|es|] == es;
  }

  ghost predicate RecordedChild(m: map<string, Uid>, dirPath: string, tenant: string, e: Entry) {
    var key := Key(Segments(ChildPath(dirPath, e.name)), tenant);
    key in m && m[key] == e.uid
  }

  /** The cache holds the first `n` listed children at their own paths. */
  ghost predicate RecordedChildren(m: map<string, Uid>, dirPath: string, tenant: string, es: seq<Entry>, n: nat)
    requires n <= |es|
  {
    forall j {:trigger RecordedChild(m, dirPath, tenant, es[j])} :: 0 <= j < n ==>
      RecordedChild(m, dirPath, tenant, es[j])
  }

  lemma ChildKeysDiffer(dirPath: string, tenant: string, a: string, b: string)
    requires GoodName(a) && GoodName(b) && a != b
    ensures Key(Segments(ChildPath(dirPath, a)), tenant) != Key(Segments(ChildPath(dirPath, b)), tenant)
  {
    ChildPathAppendsSegment(dirPath, a);
    ChildPathAppendsSegment(dirPath, b);
    var p, q := Segments(ChildPath(dirPath, a)), Segments(ChildPath(dirPath, b));
    assert p[|p| - 1] == a && q[|q| - 1] == b;
    if Key(p, tenant) == Key(q, tenant) {
      SameTenantKeys(p, q, tenant);
    }
  }

  lemma OneMoreRecorded(t: Tree, c: Cache, dirPath: string, tenant: string, dir: Uid, es: seq<Entry>, i: nat)
    requires WellFormed(t) && UniqueNames(t) && IsListing(t, dir, es) && i < |es|
    requires RecordedChildren(c.pathToUuid, dirPath, tenant, es, i)
    ensures RecordedChildren(Mapped(c, Segments(ChildPath(dirPath, es[i].name)), es[i].uid, tenant).pathToUuid,
                             dirPath, tenant, es, i + 1)
  {
    var m := Mapped(c, Segments(ChildPath(dirPath, es[i].name)), es[i].uid, tenant).pathToUuid;
    forall j | 0 <= j <= i
      ensures RecordedChild(m, dirPath, tenant, es[j])
    {
      if j < i {
        assert RecordedChild(c.pathToUuid, dirPath, tenant, es[j]);
        assert Lists(t, dir, es[i]) && Lists(t, dir, es[j]);
        assert NodeFits(t, es[i].uid) && NodeFits(t, es[j].uid);
        ChildKeysDiffer(dirPath, tenant, es[i].name, es[j].name);
      }
    }
  }

  /** How MKCOL answers when nothing fails on the way: 409 without a parent, 201 where a directory
      could be created, 500 where the core refuses. */
  ghost predicate MkcolStatus(t: Tree, path: string, status: int) {
    match UncachedWalk(t, Segments(ParentOf(StripSlash(path))))
    case None => status == CONFLICT
    case Some(p) => status == if Creatable(t, p, NameOf(StripSlash(path))) then CREATED else INTERNAL_ERROR
  }

  /** How PUT answers when nothing fails on the way: 409 without a parent, 204 for a file that
      was there, 201 for one that could be created, 500 where the core refuses. */
  ghost predicate PutStatus(t: Tree, path: string, status: int) {
    match UncachedWalk(t, Segments(ParentOf(StripSlash(path))))
    case None => status == CONFLICT
    case Some(dir) =>
      match UncachedWalk(t, Segments(path))
      case Some(u) => status == NO_CONTENT || (status == INTERNAL_ERROR && !(u in t && t[u].kind.File?))
      case None => status == if Creatable(t, dir, NameOf(StripSlash(path))) then CREATED else INTERNAL_ERROR
  }

  lemma ChildIsAt(t: Tree, u: Uid, n: Node, above: seq<Segment>)
    requires u !in t && At(t, n.parent, above)
    ensures At(t[u := n], u, above + [n.name])
  {
    AtStays(t, t[u := n], n.parent, above);
    AtChild(t[u := n], u, above);
  }

  lemma AnswerOfCopy(t: Tree, mid: Tree, host: string, src: string, destHost: string, dst: string, overwrite: string,
                     found: Option<int>, uid: Uid, parent: Uid, failed: Option<int>, refusal: string)
    requires Approached(t, mid, host, src, destHost, dst, overwrite, true, found, uid, parent)
    requires found.Some? ==> failed == found
    requires found.None? ==>
      && (failed.None? <==> CanCopy(mid, parent, NameOf(src), NameOf(dst)))
      && (failed.Some? ==> failed == Some(TransferError(refusal)))
    ensures CopyAnswer(t, host, src, destHost, dst, overwrite, failed, refusal)
    ensures ClearingRefusal(t, host, destHost, Segments(dst), overwrite).None? ==> mid == ClearedTree(t, Segments(dst))
  {
  }

  /** What a COPY's own calls come to, where none fails, once the destination is cleared and both
      ends are found. */
  ghost predicate CopyTried(mid: Tree, src: string, dst: string, parent: Uid, refused: Option<int>,
                            failed: Option<int>, listed: bool, refusal: string) {
    if refused.Some? then failed == refused
    else
      && (failed.None? <==> CanCopy(mid, parent, NameOf(src), NameOf(dst)))
      && (failed.Some? ==> failed == Some(TransferError(refusal)))
      && (failed.None? ==> listed)
  }

  /** All that is promised of a COPY where no call fails: its answer, the fate of its source, what
      the Overwrite header decides, and that no two siblings end up with one name. */
  ghost predicate CopyCleanly(t: Tree, t': Tree, host: string, src: string, destHost: string, dst: string,
                              overwrite: string, status: int, listed: bool, refusal: string) {
    && CopyAnswer(t, host, src, destHost, dst, overwrite, if status == CREATED then None else Some(status), refusal)
    && (ClearingRefusal(t, host, destHost, Segments(dst), overwrite).None? ==>
          SourceFate(t, t', Segments(src), Segments(dst), status))
    && (SameAuthority(host, destHost) ==> OverwriteRule(t, t', Segments(dst), overwrite, status))
    && (status == CREATED ==> listed && UniqueNames(t'))
  }

  /** The same of a MOVE. */
  ghost predicate MoveCleanly(t: Tree, t': Tree, host: string, src: string, destHost: string, dst: string,
                              overwrite: string, status: int, refusal: string) {
    && MoveAnswer(t, host, src, destHost, dst, overwrite, status, refusal)
    && (ClearingRefusal(t, host, destHost, Segments(dst), overwrite).None? ==>
          SourceFate(t, t', Segments(src), Segments(dst), status))
    && (SameAuthority(host, destHost) ==> OverwriteRule(t, t', Segments(dst), overwrite, status))
  }

  lemma CleanCopy(t: Tree, mid: Tree, t': Tree, host: string, src: string, destHost: string, dst: string,
                  overwrite: string, refused: Option<int>, uid: Uid, parent: Uid,
                  failed: Option<int>, listed: bool, refusal: string)
    requires WellFormed(t) && UniqueNames(t) && NameOf(dst) != ""
    requires Approached(t, mid, host, src, destHost, dst, overwrite, true, refused, uid, parent)
    requires CopyTried(mid, src, dst, parent, refused, failed, listed, refusal)
    requires forall u :: u in t ==> (u in t' <==> u in mid)
    requires refused.Some? ==> t' == mid
    requires failed.Some? ==> failed.value != CREATED
    requires failed.None? ==> UniqueNames(t')
    ensures CopyCleanly(t, t', host, src, destHost, dst, overwrite,
                        if failed.Some? then failed.value else CREATED, listed, refusal)
  {
    var status := if failed.Some? then failed.value else CREATED;
    SplitPathSplitsSegments(dst);
    AnswerOfCopy(t, mid, host, src, destHost, dst, overwrite, refused, uid, parent, failed, refusal);
    if ClearingRefusal(t, host, destHost, Segments(dst), overwrite).None? {
      FateOfSource(t, t', Segments(src), Segments(dst), status);
    }
    if SameAuthority(host, destHost) {
      OverwriteIsRuled(t, t', host, destHost, Segments(dst), overwrite, status);
    }
  }

  /** Where no call fails, COPY leaves no twin names, since the destination was cleared. */
  lemma CleanCopyHasNoTwins(t: Tree, mid: Tree, t': Tree, host: string, src: string, destHost: string, dst: string,
                            overwrite: string, uid: Uid, parent: Uid, gone: seq<Uid>, copy: Uid)
    requires WellFormed(t) && UniqueNames(t) && NameOf(dst) != "" && mid == t - Members(gone)
    requires Approached(t, mid, host, src, destHost, dst, overwrite, true, None, uid, parent)
    requires At(mid, parent, Segments(ParentOf(dst))) && TwinsExactlyIfTaken(t, t', gone, parent, dst, copy)
    ensures UniqueNames(t')
  {
    ClearedNameIsFree(t, parent, dst);
  }

  lemma CleanMove(t: Tree, mid: Tree, t': Tree, host: string, src: string, destHost: string, dst: string,
                  overwrite: string, refused: Option<int>, uid: Uid, parent: Uid, status: int, refusal: string)
    requires WellFormed(t) && UniqueNames(t) && NameOf(dst) != "" && t'.Keys == mid.Keys
    requires Approached(t, mid, host, src, destHost, dst, overwrite, ParentOf(src) != ParentOf(dst),
                        refused, uid, parent)
    requires refused.Some? ==> status == refused.value && t' == mid
    requires refused.None? ==>
      && (status == CREATED <==>
            CanRelocate(mid, uid, ParentOf(src) == ParentOf(dst), parent, NameOf(src), NameOf(dst)))
      && (status != CREATED ==> status == TransferError(refusal))
    ensures MoveCleanly(t, t', host, src, destHost, dst, overwrite, status, refusal)
  {
    SplitPathSplitsSegments(dst);
    AnswerOfMove(t, mid, host, src, destHost, dst, overwrite, refused, uid, parent, status, refusal);
    if ClearingRefusal(t, host, destHost, Segments(dst), overwrite).None? {
      FateOfSource(t, t', Segments(src), Segments(dst), status);
    }
    if SameAuthority(host, destHost) {
      OverwriteIsRuled(t, t', host, destHost, Segments(dst), overwrite, status);
    }
  }

  class Bridge {
    const core: FileCore
    const resolver: PathResolver

    constructor (core: FileCore)
      requires core.Valid()
      ensures this.core == core && Valid() && fresh(resolver)
      ensures World() == CacheSafety.World(core.tree, core.used, FreshCache())
    {
      this.core := core;
      resolver := new PathResolver(core);
    }

    ghost predicate Valid()
      reads this, core
    {
      core.Valid() && resolver.core == core
    }

    ghost function World(): World
      reads this, core, resolver
    {
      CacheSafety.World(core.tree, core.used, resolver.Cache())
    }

    /** The cache may be believed about this path, for the tenant of this host. */
    ghost predicate Trusted(host: string, path: string)
      reads this, core, resolver
    {
      Believed(World(), TenantOf(host), Segments(path))
    }

    /** The cache may be believed about every path a MOVE or COPY resolves. */
    ghost predicate TrustedMove(host: string, source: string, dest: string)
      reads this, core, resolver
    {
      BelievedAround(World(), TenantOf(host), StripSlash(source), StripSlash(dest))
    }

    /** Resolves a path, recording what that means for belief in the cache. */
    method Resolve(path: string, tenant: string) returns (answer: Option<Uid>, ghost uids: seq<Uid>)
      requires Valid() && PlainTenant(tenant)
      modifies resolver, core`faults, core`refusal
      ensures Valid() && core.faults >= old(core.faults)
      ensures Resolves(core.tree, old(resolver.Cache()), tenant, Segments(path), answer, resolver.Cache(), uids,
                       core.faults == old(core.faults))
      ensures Follows(old(World()), World(), tenant)
      ensures OnlyOnTheWay(old(resolver.Cache()), resolver.Cache(), tenant, Segments(path), Segments(path))
      ensures Believed(old(World()), tenant, Segments(path)) ==>
        && (answer.Some? ==>
              && At(core.tree, answer.value, Segments(path))
              && (Segments(path) != [] ==> EntryOf(resolver.pathToUuid, Key(Segments(path), tenant)) == answer))
        && (UniqueNames(core.tree) && core.faults == old(core.faults) ==>
              answer == UncachedWalk(core.tree, Segments(path)))
    {
      ghost var w := World();
      answer, uids := resolver.ResolvePath(path, tenant);
      ghost var clean := core.faults == old(core.faults);
      Resolving(w, tenant, Segments(path), answer, resolver.Cache(), uids, clean);
      if Believed(w, tenant, Segments(path)) {
        if answer.Some? {
          AnswerIsAtPath(w, tenant, Segments(path), answer, resolver.Cache(), uids, clean);
          if Segments(path) != [] {
            AnswerIsRecorded(w, tenant, Segments(path), answer, resolver.Cache(), uids, clean);
          }
        }
        if UniqueNames(core.tree) && clean {
          CleanAnswerIsTheWalk(w, tenant, Segments(path), answer, resolver.Cache(), uids);
        }
      }
    }

    /** Removes a file, or a directory with everything below it. */
    method RemoveTarget(target: Uid, kind: Kind, ghost tenant: string)
      returns (ok: bool, error: string, ghost gone: seq<Uid>)
      requires Valid()
      modifies core
      ensures core.contents == old(core.contents)
      ensures Follows(old(World()), World(), tenant)
      ensures Valid() && core.used == old(core.used) && core.faults >= old(core.faults)
      ensures Removal(old(core.tree), core.tree, target, gone)
      ensures core.removed == old(core.removed) + gone
      ensures ok ==> target in old(core.tree) && Members(gone) == Subtree(old(core.tree), target)
      ensures !ok ==> target !in gone && error == core.refusal.error && !core.refusal.call.OnStat?
      ensures core.faults == old(core.faults) && target in old(core.tree) && old(core.tree)[target].kind == kind ==> ok
    {
      gone := [];
      ghost var t, w := core.tree, World();
      if kind.Directory? {
        ok, error, gone := RemoveTreeRecursive(core, target);
        Removing(w, core.tree, target, gone, tenant);
      } else {
        if target in t && t[target].kind.File? {
          FileIsChildless(t, target);
        }
        var reply := core.Remove(target, File);
        if reply.Refused? {
          return false, reply.error, gone;
        }
        WholeSubtreeGone(t, t, target, []);
        Removing(w, core.tree, target, [target], tenant);
        return true, "", [target];
      }
    }

    /** Removes what stands at a path, and drops its entry. */
    method RemoveAndForget(target: Uid, kind: Kind, path: string, tenant: string)
      returns (ok: bool, error: string, ghost gone: seq<Uid>)
      requires Valid() && PlainTenant(tenant)
      modifies core, resolver
      ensures core.contents == old(core.contents)
      ensures Follows(old(World()), World(), tenant)
      ensures OnlyOnTheWay(old(resolver.Cache()), resolver.Cache(), tenant, Segments(path), Segments(path))
      ensures Valid() && core.used == old(core.used) && core.faults >= old(core.faults)
      ensures Removal(old(core.tree), core.tree, target, gone) && core.removed == old(core.removed) + gone
      ensures ok ==>
        && target in old(core.tree) && Members(gone) == Subtree(old(core.tree), target)
        && Key(Segments(path), tenant) !in resolver.pathToUuid
      ensures !ok ==> target !in gone && error == core.refusal.error && !core.refusal.call.OnStat?
      ensures core.faults == old(core.faults) && target in old(core.tree) && old(core.tree)[target].kind == kind ==> ok
    {
      ghost var w := World();
      ok, error, gone := RemoveTarget(target, kind, tenant);
      if ok {
        ghost var w1 := World();
        Forget(path, tenant);
        Chaining(w, w1, World(), tenant);
        UnmappingIsOurs(w1.cache, tenant, Segments(path));
      }
    }

    method Delete(host: string, path: string) returns (status: int, ghost target: Uid, ghost gone: seq<Uid>)
      requires Valid()
      modifies core, resolver
      ensures core.contents == old(core.contents)
      ensures Valid() && core.used == old(core.used)
      ensures Removal(old(core.tree), core.tree, target, gone) && core.removed == old(core.removed) + gone
      ensures status == NO_CONTENT ==>
        && target in old(core.tree) && core.tree == old(core.tree) - Subtree(old(core.tree), target)
        && Key(Segments(path), TenantOf(host)) !in resolver.pathToUuid
      ensures status != NO_CONTENT ==>
        && target !in gone
        && (status == NOT_FOUND ||
            status == if && !core.refusal.call.OnStat? && target in old(core.tree)
                         && old(core.tree)[target].kind.Directory?
                      then DeleteError(core.refusal.error) else INTERNAL_ERROR)
      ensures old(Trusted(host, path)) && target != ROOT ==> At(old(core.tree), target, Segments(path))
      ensures old(Trusted(host, path)) && UniqueNames(old(core.tree)) && core.faults == old(core.faults) ==>
        status == (match UncachedWalk(old(core.tree), Segments(path))
                   case None => NOT_FOUND
                   case Some(u) => if u == ROOT then NOT_FOUND else NO_CONTENT)
      ensures Follows(old(World()), World(), TenantOf(host))
    {
      var tenant := TenantOf(host);
      TenantIsPlain(host);
      ghost var w := World();
      target, gone := ROOT, [];
      var resolved, uids := Resolve(path, tenant);
      if resolved.None? || resolved.value == ROOT {
        return NOT_FOUND, target, gone;
      }
      target := resolved.value;
      var info := core.Stat(resolved.value);
      if info.Refused? {
        return INTERNAL_ERROR, target, gone;
      }
      ghost var w1 := World();
      var ok, error;
      ok, error, gone := RemoveAndForget(resolved.value, info.value.kind, path, tenant);
      Chaining(w, w1, World(), tenant);
      if !ok {
        return if info.value.kind.Directory? then DeleteError(error) else INTERNAL_ERROR, target, gone;
      }
      return NO_CONTENT, target, gone;
    }

    /** Touch or MakeDirectory below a resolved parent. */
    method CreateChild(parent: Uid, name: string, kind: Kind, ghost tenant: string) returns (r: Reply<Uid>)
      requires Valid()
      modifies core
      ensures core.contents == old(core.contents)
      ensures Valid() && core.faults >= old(core.faults) && core.removed == old(core.removed)
      ensures r.Done? ==>
        && Creatable(old(core.tree), parent, name) && r.value !in old(core.used)
        && core.tree == old(core.tree)[r.value := Node(name, parent, kind)] && core.used == old(core.used) + {r.value}
        && (forall above :: At(old(core.tree), parent, above) ==> At(core.tree, r.value, above + [name]))
      ensures r.Refused? ==> core.tree == old(core.tree) && core.used == old(core.used)
      ensures r.Refused? && core.faults == old(core.faults) ==> !Creatable(core.tree, parent, name)
      ensures UniqueNames(old(core.tree)) ==> UniqueNames(core.tree)
      ensures Follows(old(World()), World(), tenant)
    {
      ghost var w := World();
      r := core.Create(parent, name, kind);
      if r.Done? {
        var node := Node(name, parent, kind);
        Adding(w, r.value, node, tenant);
        if UniqueNames(w.tree) {
          AddKeepsUnique(w.tree, r.value, node);
        }
        forall above | At(w.tree, parent, above)
          ensures At(core.tree, r.value, above + [name])
        {
          ChildIsAt(w.tree, r.value, node, above);
        }
      }
    }

    /** Drops the entry of a path. */
    method Forget(path: string, tenant: string)
      requires Valid() && PlainTenant(tenant)
      modifies resolver
      ensures resolver.Cache() == Unmapped(old(resolver.Cache()), Segments(path), tenant)
      ensures Follows(old(World()), World(), tenant)
    {
      ghost var w := World();
      resolver.RemovePathMapping(path, tenant);
      Unmapping(w, tenant, Segments(path));
    }

    /** Records where a uid lives. */
    method Record(path: string, uid: Uid, tenant: string)
      requires Valid() && PlainTenant(tenant)
      modifies resolver
      ensures resolver.Cache() == Mapped(old(resolver.Cache()), Segments(path), uid, tenant)
      ensures OnlyUnder(old(resolver.Cache()), resolver.Cache(), tenant)
      ensures At(core.tree, uid, Segments(path)) ==> Follows(old(World()), World(), tenant)
    {
      ghost var w := World();
      resolver.CreatePathMapping(path, uid, tenant);
      MappingIsOurs(w.cache, tenant, Segments(path), uid);
      if At(core.tree, uid, Segments(path)) {
        assert uid != ROOT ==> NodeFits(core.tree, uid);
        Mapping(w, tenant, Segments(path), uid);
      }
    }

    /** Makes a directory below the parent it finds. */
    method MakeUnder(parentPath: string, name: string, path: string, tenant: string)
      returns (failed: Option<int>, uid: Uid, ghost parent: Uid)
      requires Valid() && PlainTenant(tenant)
      requires name != "" ==> Segments(parentPath) + [name] == Segments(path)
      modifies core, resolver
      ensures core.contents == old(core.contents)
      ensures Valid() && core.faults >= old(core.faults) && core.removed == old(core.removed)
      ensures failed.Some? ==>
        failed.value in {CONFLICT, INTERNAL_ERROR} && core.tree == old(core.tree) && core.used == old(core.used)
      ensures failed.None? ==>
        && uid !in old(core.used) && core.used == old(core.used) + {uid}
        && core.tree == old(core.tree)[uid := Node(name, parent, Directory)]
      ensures UniqueNames(old(core.tree)) ==> UniqueNames(core.tree)
      ensures Follows(old(World()), World(), tenant)
      ensures Believed(old(World()), tenant, Segments(parentPath)) ==>
        && (failed.None? ==> At(core.tree, uid, Segments(path)))
        && (UniqueNames(old(core.tree)) && core.faults == old(core.faults) ==>
              match UncachedWalk(old(core.tree), Segments(parentPath))
              case None => failed == Some(CONFLICT)
              case Some(p) => failed == if Creatable(old(core.tree), p, name) then None else Some(INTERNAL_ERROR))
    {
      ghost var w := World();
      uid, parent := ROOT, ROOT;
      var resolved, uids := Resolve(parentPath, tenant);
      if resolved.None? {
        return Some(CONFLICT), uid, parent;
      }
      parent := resolved.value;
      ghost var w1 := World();
      var reply := CreateChild(resolved.value, name, Directory, tenant);
      Chaining(w, w1, World(), tenant);
      if reply.Refused? {
        return Some(INTERNAL_ERROR), uid, parent;
      }
      return None, reply.value, parent;
    }

    method Mkcol(host: string, path: string) returns (status: int, ghost parent: Uid, ghost made: Uid)
      requires Valid()
      modifies core, resolver
      ensures core.contents == old(core.contents)
      ensures Valid() && core.removed == old(core.removed)
      ensures status in {CREATED, CONFLICT, INTERNAL_ERROR}
      ensures status == CREATED ==>
        && made !in old(core.used) && core.used == old(core.used) + {made}
        && core.tree == old(core.tree)[made := Node(NameOf(StripSlash(path)), parent, Directory)]
        && EntryOf(resolver.pathToUuid, Key(Segments(path), TenantOf(host))) == Some(made)
      ensures status != CREATED ==> core.tree == old(core.tree) && core.used == old(core.used)
      ensures UniqueNames(old(core.tree)) ==> UniqueNames(core.tree)
      ensures OnlyUnder(old(resolver.Cache()), resolver.Cache(), TenantOf(host))
      ensures old(Trusted(host, ParentOf(StripSlash(path)))) ==>
        && (status == CREATED ==> At(core.tree, made, Segments(path)))
        && (UniqueNames(old(core.tree)) && core.faults == old(core.faults) ==>
              MkcolStatus(old(core.tree), path, status))
        && Follows(old(World()), World(), TenantOf(host))
    {
      var tenant := TenantOf(host);
      TenantIsPlain(host);
      ghost var w := World();
      var cleanPath := StripSlash(path);
      StripSlashKeepsSegments(path);
      if NameOf(cleanPath) != "" {
        SplitPathSplitsSegments(cleanPath);
      }
      var failed, uid;
      failed, uid, parent := MakeUnder(ParentOf(cleanPath), NameOf(cleanPath), path, tenant);
      made := uid;
      if failed.Some? {
        return failed.value, parent, made;
      }
      ghost var w1 := World();
      Record(path, uid, tenant);
      StayingOurs(w.cache, w1.cache, resolver.Cache(), tenant);
      if Follows(w1, World(), tenant) {
        Chaining(w, w1, World(), tenant);
      }
      return CREATED, parent, made;
    }

    /** Finds the file a PUT writes to, creating it when there is none. */
    method OpenForPut(parentPath: string, name: string, path: string, tenant: string)
      returns (failed: Option<int>, existed: bool, uid: Uid, ghost parent: Uid)
      requires Valid() && PlainTenant(tenant)
      requires name != "" ==> Segments(parentPath) + [name] == Segments(path)
      modifies core, resolver
      ensures core.contents == old(core.contents)
      ensures Valid() && core.faults >= old(core.faults) && core.removed == old(core.removed)
      ensures failed.Some? ==> failed.value in {CONFLICT, INTERNAL_ERROR}
      ensures
        || (core.tree == old(core.tree) && core.used == old(core.used) && (failed.None? ==> existed))
        || (failed.None? && !existed && uid !in old(core.used) && core.used == old(core.used) + {uid}
            && core.tree == old(core.tree)[uid := Node(name, parent, File)])
      ensures UniqueNames(old(core.tree)) ==> UniqueNames(core.tree)
      ensures Follows(old(World()), World(), tenant)
      ensures Believed(old(World()), tenant, Segments(path))
              && Believed(old(World()), tenant, Segments(parentPath)) ==>
        && (failed.None? ==> At(core.tree, uid, Segments(path)))
        && (UniqueNames(old(core.tree)) && core.faults == old(core.faults) ==>
              match UncachedWalk(old(core.tree), Segments(parentPath))
              case None => failed == Some(CONFLICT)
              case Some(dir) =>
                match UncachedWalk(old(core.tree), Segments(path))
                case Some(u) => failed.None? && existed && uid == u
                case None =>
                  if Creatable(old(core.tree), dir, name) then failed.None? && !existed
                  else failed == Some(INTERNAL_ERROR))
    {
      ghost var w := World();
      existed, uid, parent := false, ROOT, ROOT;
      var parentResolved, uids := Resolve(parentPath, tenant);
      ghost var w1 := World();
      if parentResolved.None? {
        return Some(CONFLICT), existed, uid, parent;
      }
      parent := parentResolved.value;
      var fileResolved, uids' := Resolve(path, tenant);
      ghost var w2 := World();
      Chaining(w, w1, w2, tenant);
      if fileResolved.Some? {
        return None, true, fileResolved.value, parent;
      }
      var reply := CreateChild(parentResolved.value, name, File, tenant);
      Chaining(w, w2, World(), tenant);
      if reply.Refused? {
        return Some(INTERNAL_ERROR), existed, uid, parent;
      }
      return None, false, reply.value, parent;
    }

    method Put(host: string, path: string, body: string) returns (status: int, ghost parent: Uid, ghost file: Uid)
      requires Valid()
      modifies core, resolver
      ensures Valid() && core.removed == old(core.removed)
      ensures status in {CREATED, NO_CONTENT, CONFLICT, INTERNAL_ERROR}
      ensures core.contents == if status in {CREATED, NO_CONTENT} then old(core.contents)[file := body]
                               else old(core.contents)
      ensures
        || (core.tree == old(core.tree) && core.used == old(core.used) && status != CREATED)
        || (file !in old(core.used) && core.used == old(core.used) + {file} && status in {CREATED, INTERNAL_ERROR}
            && core.tree == old(core.tree)[file := Node(NameOf(StripSlash(path)), parent, File)])
      ensures UniqueNames(old(core.tree)) ==> UniqueNames(core.tree)
      ensures OnlyUnder(old(resolver.Cache()), resolver.Cache(), TenantOf(host))
      ensures status in {CREATED, NO_CONTENT} ==>
        EntryOf(resolver.pathToUuid, Key(Segments(path), TenantOf(host))) == Some(file)
      ensures old(Trusted(host, path)) && old(Trusted(host, ParentOf(StripSlash(path)))) ==>
        && (status in {CREATED, NO_CONTENT} ==> At(core.tree, file, Segments(path)))
        && (UniqueNames(old(core.tree)) && core.faults == old(core.faults) ==> PutStatus(old(core.tree), path, status))
        && Follows(old(World()), World(), TenantOf(host))
    {
      var tenant := TenantOf(host);
      TenantIsPlain(host);
      ghost var w := World();
      var failed, existed, uid;
      var cleanPath := StripSlash(path);
      StripSlashKeepsSegments(path);
      if NameOf(cleanPath) != "" {
        SplitPathSplitsSegments(cleanPath);
      }
      failed, existed, uid, parent := OpenForPut(ParentOf(cleanPath), NameOf(cleanPath), path, tenant);
      file := uid;
      if failed.Some? {
        return failed.value, parent, file;
      }
      ghost var w1 := World();
      var stored := core.PutContent(uid, body);
      if stored.Refused? {
        return INTERNAL_ERROR, parent, file;
      }
      Record(path, uid, tenant);
      StayingOurs(w.cache, w1.cache, resolver.Cache(), tenant);
      if Follows(w1, World(), tenant) {
        Chaining(w, w1, World(), tenant);
      }
      return if existed then NO_CONTENT else CREATED, parent, file;
    }

    /** Records one entry of a listing under its own path. */
    method RecordEntry(path: string, tenant: string, ghost dir: Uid, es: seq<Entry>, i: nat,
                       ghost w: World) returns (href: string)
      requires Valid() && PlainTenant(tenant) && IsListing(core.tree, dir, es) && i < |es|
      modifies resolver
      ensures href == ChildPath(path, es[i].name)
      ensures UniqueNames(core.tree) && RecordedChildren(old(resolver.pathToUuid), path, tenant, es, i) ==>
                RecordedChildren(resolver.pathToUuid, path, tenant, es, i + 1)
      ensures OnlyUnder(w.cache, old(resolver.Cache()), tenant) ==> OnlyUnder(w.cache, resolver.Cache(), tenant)
      ensures At(core.tree, dir, Segments(path)) && Follows(w, old(World()), tenant) ==> Follows(w, World(), tenant)
    {
      ghost var c, w1 := resolver.Cache(), World();
      assert Lists(core.tree, dir, es[i]) && NodeFits(core.tree, es[i].uid);
      href := ChildPath(path, es[i].name);
      ChildPathAppendsSegment(path, es[i].name);
      if At(core.tree, dir, Segments(path)) {
        AtChild(core.tree, es[i].uid, Segments(path));
      }
      Record(href, es[i].uid, tenant);
      if OnlyUnder(w.cache, c, tenant) {
        StayingOurs(w.cache, c, resolver.Cache(), tenant);
      }
      if At(core.tree, dir, Segments(path)) && Follows(w, w1, tenant) {
        Chaining(w, w1, World(), tenant);
      }
      if UniqueNames(core.tree) && RecordedChildren(c.pathToUuid, path, tenant, es, i) {
        OneMoreRecorded(core.tree, c, path, tenant, dir, es, i);
      }
    }

    /** Records every entry of a listing, and returns their paths in order. */
    method RecordChildren(path: string, tenant: string, ghost dir: Uid, es: seq<Entry>) returns (hrefs: seq<string>)
      requires Valid() && PlainTenant(tenant) && (es != [] ==> IsListing(core.tree, dir, es))
      modifies resolver
      ensures hrefs == ChildHrefs(path, es)
      ensures RecordedChildren(resolver.pathToUuid, path, tenant, es, |es|) || !UniqueNames(core.tree)
      ensures OnlyUnder(old(resolver.Cache()), resolver.Cache(), tenant)
      ensures At(core.tree, dir, Segments(path)) ==> Follows(old(World()), World(), tenant)
    {
      ghost var w := World();
      hrefs := [];
      ghost var done := [];
      for i := 0 to |es|
        invariant done == es[..i] && hrefs == ChildHrefs(path, done)
        invariant UniqueNames(core.tree) ==> RecordedChildren(resolver.pathToUuid, path, tenant, es, i)
        invariant OnlyUnder(w.cache, resolver.Cache(), tenant)
        invariant At(core.tree, dir, Segments(path)) ==> Follows(w, World(), tenant)
      {
        var href := RecordEntry(path, tenant, dir, es, i, w);
        HrefsGrow(path, done, es[i]);
        hrefs := hrefs + [href];
        done := done + [es[i]];
      }
      assert done == es;
    }

    /** The entries a PROPFIND reports below its target: none for a file, at depth 0, or when
        the listing is refused. */
    method Children(dir: Uid, path: string, depth: string) returns (es: seq<Entry>)
      requires Valid()
      modifies core`faults, core`refusal
      ensures Valid() && World() == old(World()) && core.faults >= old(core.faults)
      ensures es != [] ==> depth != "0" && IsListing(core.tree, dir, es)
      ensures core.faults == old(core.faults) && depth != "0" && IsDirectory(core.tree, dir) ==>
        IsListing(core.tree, dir, es)
    {
      if path != "/" && dir != ROOT {
        var info := core.Stat(dir);
        if info.Done? && info.value.kind.File? {
          return [];
        }
      }
      var listing := core.ListDirectory(dir);
      return if listing.Refused? || depth == "0" then [] else listing.value;
    }

    /** The entries of an answer, recorded, and its hrefs, the target's own first. */
    method ListAndRecord(dir: Uid, rawPath: string, depth: string, tenant: string)
      returns (es: seq<Entry>, hrefs: seq<string>)
      requires Valid() && PlainTenant(tenant)
      modifies core`faults, core`refusal, resolver
      ensures Valid() && core.faults >= old(core.faults)
      ensures hrefs == [StripSlash(rawPath)] + ChildHrefs(StripSlash(rawPath), es) && HrefsFit(rawPath, es, hrefs)
      ensures es != [] ==> depth != "0" && IsListing(core.tree, dir, es)
      ensures core.faults == old(core.faults) && depth != "0" && IsDirectory(core.tree, dir) ==>
        IsListing(core.tree, dir, es)
      ensures UniqueNames(core.tree) ==> RecordedChildren(resolver.pathToUuid, StripSlash(rawPath), tenant, es, |es|)
      ensures OnlyUnder(old(resolver.Cache()), resolver.Cache(), tenant)
      ensures At(core.tree, dir, Segments(rawPath)) ==> Follows(old(World()), World(), tenant)
    {
      var path := StripSlash(rawPath);
      StripSlashKeepsSegments(rawPath);
      es := Children(dir, path, depth);
      hrefs := RecordChildren(path, tenant, dir, es);
      ListedNamesAreGood(core.tree, dir, es);
      HrefsAreRight(rawPath, es);
      hrefs := [path] + hrefs;
    }

    /** Lists a collection, or reports a single file. The statuses that only differ in their
        body (a degraded listing, an unreachable core) are one status here. */
    method Propfind(host: string, rawPath: string, depth: string)
      returns (status: int, hrefs: seq<string>, ghost dir: Uid, ghost es: seq<Entry>)
      requires Valid()
      modifies core`faults, core`refusal, resolver
      ensures Valid()
      ensures status == MULTI_STATUS ==> hrefs == [StripSlash(rawPath)] + ChildHrefs(StripSlash(rawPath), es)
      ensures status in {MULTI_STATUS, NOT_FOUND}
      ensures status == MULTI_STATUS ==> HrefsFit(rawPath, es, hrefs)
      ensures es != [] ==> depth != "0" && IsListing(core.tree, dir, es)
      ensures old(Trusted(host, rawPath)) && status == MULTI_STATUS ==> At(core.tree, dir, Segments(rawPath))
      ensures UniqueNames(core.tree) ==>
        RecordedChildren(resolver.pathToUuid, StripSlash(rawPath), TenantOf(host), es, |es|)
      ensures old(Trusted(host, rawPath)) && UniqueNames(core.tree) && core.faults == old(core.faults) ==>
        match UncachedWalk(core.tree, Segments(rawPath))
        case None => status == NOT_FOUND
        case Some(u) =>
          && status == MULTI_STATUS
          && (depth != "0" && IsDirectory(core.tree, u) ==> IsListing(core.tree, u, es))
      ensures OnlyUnder(old(resolver.Cache()), resolver.Cache(), TenantOf(host))
      ensures old(Trusted(host, rawPath)) ==> Follows(old(World()), World(), TenantOf(host))
    {
      var tenant := TenantOf(host);
      TenantIsPlain(host);
      ghost var w := World();
      dir, es, hrefs := ROOT, [], [];
      var path := StripSlash(rawPath);
      StripSlashKeepsSegments(rawPath);
      var resolved, uids := Resolve(path, tenant);
      if resolved.None? {
        return NOT_FOUND, hrefs, dir, es;
      }
      ghost var w1 := World();
      dir := resolved.value;
      var entries;
      entries, hrefs := ListAndRecord(resolved.value, rawPath, depth, tenant);
      es := entries;
      StayingOurs(w.cache, w1.cache, resolver.Cache(), tenant);
      if Follows(w1, World(), tenant) {
        Chaining(w, w1, World(), tenant);
      }
      return MULTI_STATUS, hrefs, dir, es;
    }

    /** Removes what an existing destination is, taken for a file if it cannot be asked. */
    method ClearTarget(target: Uid, dest: string, tenant: string, ghost w: World)
      returns (failed: Option<int>, ghost gone: seq<Uid>)
      requires Valid() && PlainTenant(tenant)
      modifies core, resolver
      ensures core.contents == old(core.contents)
      ensures Follows(w, old(World()), tenant) ==> Follows(w, World(), tenant)
      ensures OnlyOnTheWay(w.cache, old(resolver.Cache()), tenant, Segments(dest), Segments(dest)) ==>
        OnlyOnTheWay(w.cache, resolver.Cache(), tenant, Segments(dest), Segments(dest))
      ensures Valid() && core.used == old(core.used) && core.faults >= old(core.faults)
      ensures Removal(old(core.tree), core.tree, target, gone)
      ensures failed.None? ==> target in old(core.tree) && Members(gone) == Subtree(old(core.tree), target)
      ensures failed.Some? ==> failed.value in CORE_ERRORS && failed.value == DeleteError(core.refusal.error)
      ensures core.faults == old(core.faults) && target in old(core.tree) ==> failed.None?
    {
      var info := core.Stat(target);
      ghost var w1 := World();
      var ok, error;
      ok, error, gone := RemoveAndForget(target, if info.Done? then info.value.kind else File, dest, tenant);
      failed := if ok then None else Some(DeleteError(error));
      if Follows(w, w1, tenant) {
        Chaining(w, w1, World(), tenant);
      }
      if OnlyOnTheWay(w.cache, w1.cache, tenant, Segments(dest), Segments(dest)) {
        StayingOnTheWay(w.cache, w1.cache, resolver.Cache(), tenant, Segments(dest), Segments(dest),
                        Segments(dest), Segments(dest));
      }
    }

    /** Checks the destination's host and applies the Overwrite header: an existing target is
        refused or removed first. */
    method PrepareDestination(host: string, destHost: string, dest: string, overwrite: string, tenant: string)
      returns (failed: Option<int>, ghost top: Uid, ghost gone: seq<Uid>)
      requires Valid() && PlainTenant(tenant)
      modifies core, resolver
      ensures core.contents == old(core.contents)
      ensures Valid() && core.used == old(core.used) && core.faults >= old(core.faults)
      ensures Cleared(old(core.tree), core.tree, top, gone, overwrite)
      ensures failed.None? && gone != [] ==> Members(gone) == Subtree(old(core.tree), top)
      ensures Believed(old(World()), tenant, Segments(dest)) && gone != [] ==>
        At(old(core.tree), top, Segments(dest))
      ensures failed == Some(BAD_GATEWAY) <==> !SameAuthority(host, destHost)
      ensures RefusedCleanly(failed, old(core.tree), core.tree)
      ensures failed.Some? && failed.value in CORE_ERRORS ==> failed.value == DeleteError(core.refusal.error)
      ensures Follows(old(World()), World(), tenant)
      ensures OnlyOnTheWay(old(resolver.Cache()), resolver.Cache(), tenant, Segments(dest), Segments(dest))
      ensures Believed(old(World()), tenant, Segments(dest))
              && UniqueNames(old(core.tree)) && core.faults == old(core.faults) ==>
        && failed == ClearingRefusal(old(core.tree), host, destHost, Segments(dest), overwrite)
        && (failed.None? ==> core.tree == ClearedTree(old(core.tree), Segments(dest)))
    {
      ghost var w := World();
      top, gone := ROOT, [];
      if !SameAuthority(host, destHost) {
        return Some(BAD_GATEWAY), top, gone;
      }
      var existing, uids := Resolve(dest, tenant);
      if existing.None? || existing.value == ROOT {
        return None, top, gone;
      }
      if overwrite != "" && (overwrite[0] == 'F' || overwrite[0] == 'f') {
        return Some(PRECONDITION_FAILED), top, gone;
      }
      top := existing.value;
      failed, gone := ClearTarget(existing.value, dest, tenant, w);
    }

    /** Resolves the source of a transfer, and its new parent where that is needed. */
    method FindBoth(src: string, parentPath: string, needParent: bool, tenant: string)
      returns (failed: Option<int>, uid: Uid, parent: Uid)
      requires Valid() && PlainTenant(tenant)
      modifies core`faults, core`refusal, resolver
      ensures Valid() && core.faults >= old(core.faults)
      ensures Follows(old(World()), World(), tenant)
      ensures OnlyOnTheWay(old(resolver.Cache()), resolver.Cache(), tenant, Segments(src), Segments(parentPath))
      ensures failed.Some? ==> failed.value in {NOT_FOUND, CONFLICT}
      ensures failed.None? ==>
        && uid != ROOT
        && (Believed(old(World()), tenant, Segments(src)) ==> At(core.tree, uid, Segments(src)))
        && (needParent && Believed(old(World()), tenant, Segments(parentPath)) ==>
              At(core.tree, parent, Segments(parentPath)))
        && (UniqueNames(core.tree) && Believed(old(World()), tenant, Segments(src))
            && Believed(old(World()), tenant, Segments(parentPath)) ==>
              (needParent && parent == uid) || EntryOf(resolver.pathToUuid, Key(Segments(src), tenant)) == Some(uid))
      ensures Believed(old(World()), tenant, Segments(src))
              && Believed(old(World()), tenant, Segments(parentPath))
              && UniqueNames(core.tree) && core.faults == old(core.faults) ==>
        && failed == FindingRefusal(core.tree, Segments(src), Segments(parentPath), needParent)
        && (failed.None? ==> UncachedWalk(core.tree, Segments(src)) == Some(uid))
        && (failed.None? && needParent ==> UncachedWalk(core.tree, Segments(parentPath)) == Some(parent))
    {
      ghost var w := World();
      var found, uids := Resolve(src, tenant);
      if found.None? || found.value == ROOT {
        return Some(NOT_FOUND), ROOT, ROOT;
      }
      if !needParent {
        return None, found.value, ROOT;
      }
      ghost var w1, clean1 := World(), core.faults;
      var dparent, uids' := Resolve(parentPath, tenant);
      Chaining(w, w1, World(), tenant);
      if && UniqueNames(core.tree) && Believed(w, tenant, Segments(src)) && Believed(w, tenant, Segments(parentPath))
         && dparent.Some? {
        if Segments(parentPath) == Segments(src) {
          AtIsInjective(core.tree, found.value, dparent.value, Segments(src));
        } else {
          RightEntryStays(core.tree, w1.cache, tenant, Segments(parentPath), dparent, resolver.Cache(), uids',
                          core.faults == clean1, Segments(src), found.value);
        }
      }
      if dparent.None? {
        return Some(CONFLICT), found.value, ROOT;
      }
      return None, found.value, dparent.value;
    }

    /** What MOVE and COPY do before their own change: clear the destination, find both ends. */
    method Approach(host: string, src: string, destHost: string, dst: string, overwrite: string, needParent: bool,
                    tenant: string)
      returns (failed: Option<int>, uid: Uid, parent: Uid, ghost top: Uid, ghost gone: seq<Uid>)
      requires Valid() && PlainTenant(tenant) && NameOf(dst) != ""
      modifies core, resolver
      ensures core.contents == old(core.contents)
      ensures Valid() && core.used == old(core.used) && core.faults >= old(core.faults)
      ensures Cleared(old(core.tree), core.tree, top, gone, overwrite) && Follows(old(World()), World(), tenant)
      ensures OnlyOnTheWay(old(resolver.Cache()), resolver.Cache(), tenant, Segments(src), Segments(dst))
      ensures failed.None? && gone != [] ==> Members(gone) == Subtree(old(core.tree), top)
      ensures Believed(old(World()), tenant, Segments(dst)) && gone != [] ==> At(old(core.tree), top, Segments(dst))
      ensures failed == Some(BAD_GATEWAY) <==> !SameAuthority(host, destHost)
      ensures RefusedCleanly(failed, old(core.tree), core.tree)
      ensures failed.None? ==> Located(old(World()), World(), tenant, src, dst, needParent, uid, parent)
      ensures BelievedAround(old(World()), tenant, src, dst) && UniqueNames(old(core.tree))
              && core.faults == old(core.faults) ==>
        Approached(old(core.tree), core.tree, host, src, destHost, dst, overwrite, needParent, failed, uid, parent)
    {
      ghost var w := World();
      uid, parent := ROOT, ROOT;
      failed, top, gone := PrepareDestination(host, destHost, dst, overwrite, tenant);
      ghost var mid := World();
      if UniqueNames(w.tree) {
        RemovalKeepsUnique(w.tree, mid.tree, top, gone);
      }
      if failed.Some? {
        return;
      }
      failed, uid, parent := FindBoth(src, ParentOf(dst), needParent, tenant);
      Chaining(w, mid, World(), tenant);
      SplitPathSplitsSegments(dst);
      StayingOnTheWay(w.cache, mid.cache, resolver.Cache(), tenant, Segments(src), Segments(ParentOf(dst)),
                      Segments(src), Segments(dst));
    }

    /** Renames the node in place, or moves it and then renames it if its name changes too. */
    method Relocate(uid: Uid, inPlace: bool, parent: Uid, oldName: string, newName: string)
      returns (ok: bool, error: string)
      requires Valid() && uid != ROOT
      modifies core
      ensures core.contents == old(core.contents)
      ensures Valid() && core.used == old(core.used) && core.faults >= old(core.faults)
      ensures ok ==> RelocatedTo(old(core.tree), core.tree, uid, inPlace, parent, oldName, newName)
      ensures core.faults == old(core.faults) ==>
        (ok <==> CanRelocate(old(core.tree), uid, inPlace, parent, oldName, newName))
      ensures !ok ==>
        && error == core.refusal.error
        && (core.tree == old(core.tree) || (!inPlace && HalfMoved(old(core.tree), core.tree, uid, parent)))
    {
      ghost var t := core.tree;
      if inPlace {
        var r := core.Rename(uid, newName);
        if r.Refused? {
          return false, r.error;
        }
        ParentIsOutside(t, uid);
        assert NodeFits(t, uid);
        return true, "";
      }
      var m := core.Move(uid, parent);
      if m.Refused? {
        return false, m.error;
      }
      assert NodeFits(t, uid);
      if newName != oldName {
        var r := core.Rename(uid, newName);
        if r.Refused? {
          return false, r.error;
        }
        NameTakenElsewhere(t, uid, t[uid].(parent := parent), parent, newName);
        assert core.tree == t[uid := Node(newName, parent, t[uid].kind)];
      }
      return true, "";
    }

    /** MOVE once both ends are found: the remote calls, then the cache. */
    method MoveFound(uid: Uid, inPlace: bool, parent: Uid, src: string, dst: string, tenant: string)
      returns (status: int)
      requires Valid() && uid != ROOT
      modifies core, resolver
      ensures core.contents == old(core.contents)
      ensures Valid() && core.used == old(core.used) && core.faults >= old(core.faults)
      ensures status == CREATED ==>
        && RelocatedTo(old(core.tree), core.tree, uid, inPlace, parent, NameOf(src), NameOf(dst))
        && resolver.Cache() == Mapped(Unmapped(old(resolver.Cache()), Segments(src), tenant),
                                      Segments(dst), uid, tenant)
      ensures status != CREATED ==>
        && status == TransferError(core.refusal.error)
        && (core.tree == old(core.tree) || (!inPlace && HalfMoved(old(core.tree), core.tree, uid, parent)))
        && resolver.Cache() == old(resolver.Cache())
      ensures core.faults == old(core.faults) ==>
        (status == CREATED <==> CanRelocate(old(core.tree), uid, inPlace, parent, NameOf(src), NameOf(dst)))
    {
      var ok, error := Relocate(uid, inPlace, parent, NameOf(src), NameOf(dst));
      if !ok {
        return TransferError(error);
      }
      resolver.RemovePathMapping(src, tenant);
      resolver.CreatePathMapping(dst, uid, tenant);
      return CREATED;
    }

    /** MOVE up to the last remote call, on a source and a destination without a trailing slash.
        `mid` is the world once the destination is cleared and everything is resolved. */
    method TryMove(host: string, src: string, destHost: string, dst: string, overwrite: string, tenant: string)
      returns (status: int, ghost uid: Uid, ghost top: Uid, ghost gone: seq<Uid>, ghost parent: Uid, ghost mid: World,
               ghost refused: Option<int>)
      requires Valid() && PlainTenant(tenant) && NameOf(dst) != ""
      modifies core, resolver
      ensures core.contents == old(core.contents)
      ensures Valid() && core.used == old(core.used) == mid.used
      ensures Cleared(old(core.tree), mid.tree, top, gone, overwrite) && Follows(old(World()), mid, tenant)
      ensures OnlyOnTheWay(old(resolver.Cache()), mid.cache, tenant, Segments(src), Segments(dst))
      ensures status == CREATED && gone != [] ==> Members(gone) == Subtree(old(core.tree), top)
      ensures Believed(old(World()), tenant, Segments(dst)) && gone != [] ==> At(old(core.tree), top, Segments(dst))
      ensures status == CREATED || core.tree != mid.tree ==>
        Located(old(World()), mid, tenant, src, dst, ParentOf(src) != ParentOf(dst), uid, parent)
      ensures status == CREATED ==>
        && RelocatedTo(mid.tree, core.tree, uid, ParentOf(src) == ParentOf(dst), parent, NameOf(src), NameOf(dst))
        && resolver.Cache() == Mapped(Unmapped(mid.cache, Segments(src), tenant), Segments(dst), uid, tenant)
      ensures status != CREATED ==>
        && (core.tree == mid.tree || HalfMoved(mid.tree, core.tree, uid, parent))
        && resolver.Cache() == mid.cache
      ensures refused == Some(BAD_GATEWAY) <==> !SameAuthority(host, destHost)
      ensures RefusedCleanly(refused, old(core.tree), mid.tree)
      ensures if refused.Some? then World() == mid && status == refused.value else status in CORE_ERRORS + {CREATED}
      ensures BelievedAround(old(World()), tenant, src, dst) && UniqueNames(old(core.tree))
              && core.faults == old(core.faults) ==>
        && Approached(old(core.tree), mid.tree, host, src, destHost, dst, overwrite, ParentOf(src) != ParentOf(dst),
                      refused, uid, parent)
        && (refused.None? ==>
              && (status == CREATED <==>
                    CanRelocate(mid.tree, uid, ParentOf(src) == ParentOf(dst), parent, NameOf(src), NameOf(dst)))
              && (status != CREATED ==> status == TransferError(core.refusal.error)))
    {
      var inPlace := ParentOf(src) == ParentOf(dst);
      var failed, found, under;
      failed, found, under, top, gone := Approach(host, src, destHost, dst, overwrite, !inPlace, tenant);
      mid, uid, parent, refused := World(), found, under, failed;
      if failed.Some? {
        status := failed.value;
      } else {
        status := MoveFound(found, inPlace, under, src, dst, tenant);
      }
    }

    /** The same, with what it promises. */
    method MoveTo(host: string, source: string, destHost: string, dest: string, overwrite: string, tenant: string)
      returns (status: int, ghost uid: Uid, ghost top: Uid, ghost gone: seq<Uid>, ghost parent: Uid, ghost mid: World)
      requires Valid() && PlainTenant(tenant) && NameOf(StripSlash(dest)) != ""
      modifies core, resolver
      ensures core.contents == old(core.contents)
      ensures Valid() && core.used == old(core.used)
      ensures MovePromise(old(World()), mid, World(), uid, top, gone, parent, source, dest, tenant, status == CREATED)
      ensures ForbidsOverwrite(overwrite) ==> gone == []
      ensures Believed(old(World()), tenant, Segments(dest)) && gone != [] ==> At(old(core.tree), top, Segments(dest))
      ensures status == BAD_GATEWAY <==> !SameAuthority(host, destHost)
      ensures BelievedAround(old(World()), tenant, StripSlash(source), StripSlash(dest)) && UniqueNames(old(core.tree))
              && core.faults == old(core.faults) ==>
        MoveCleanly(old(core.tree), core.tree, host, StripSlash(source), destHost, StripSlash(dest), overwrite, status,
                    core.refusal.error)
    {
      ghost var w := World();
      StripSlashKeepsSegments(source);
      StripSlashKeepsSegments(dest);
      ghost var refused;
      status, uid, top, gone, parent, mid, refused :=
        TryMove(host, StripSlash(source), destHost, StripSlash(dest), overwrite, tenant);
      if status == CREATED {
        MoveFinished(w, mid, World(), top, gone, uid, parent, source, dest, tenant);
      } else {
        MoveFailed(w, mid, World(), top, gone, uid, parent, source, dest, tenant);
      }
      if && BelievedAround(w, tenant, StripSlash(source), StripSlash(dest)) && UniqueNames(w.tree)
         && core.faults == old(core.faults) {
        CleanMove(w.tree, mid.tree, core.tree, host, StripSlash(source), destHost, StripSlash(dest), overwrite,
                  refused, uid, parent, status, core.refusal.error);
      }
    }

    /** MOVE. `gone` are the nodes removed to clear the destination, `top` what was there, and `mid`
        the world before the change the request is for. */
    method Move(host: string, source: string, destination: Option<Destination>, overwrite: string)
      returns (status: int, ghost uid: Uid, ghost top: Uid, ghost gone: seq<Uid>, ghost parent: Uid, ghost mid: World)
      requires Valid()
      modifies core, resolver
      ensures core.contents == old(core.contents)
      ensures Valid() && core.used == old(core.used)
      ensures destination.None? || NameOf(StripSlash(destination.value.path)) == "" ==>
        status == BAD_REQUEST && World() == old(World())
      ensures status == BAD_GATEWAY <==>
        && destination.Some? && NameOf(StripSlash(destination.value.path)) != ""
        && !SameAuthority(host, destination.value.host)
      ensures overwrite != "" && overwrite[0] in {'F', 'f'} ==> gone == []
      ensures destination.Some? ==>
        MovePromise(old(World()), mid, World(), uid, top, gone, parent, source, destination.value.path, TenantOf(host),
                    status == CREATED)
      ensures ForbidsOverwrite(overwrite) || destination.None? ==> gone == []
      ensures gone != [] && old(Trusted(host, destination.value.path)) ==>
        At(old(core.tree), top, Segments(destination.value.path))
      ensures destination.Some? && NameOf(StripSlash(destination.value.path)) != "" && UniqueNames(old(core.tree))
              && old(TrustedMove(host, source, destination.value.path)) && core.faults == old(core.faults) ==>
        MoveCleanly(old(core.tree), core.tree, host, StripSlash(source), destination.value.host,
                    StripSlash(destination.value.path), overwrite, status, core.refusal.error)
    {
      uid, top, gone, parent, mid := ROOT, ROOT, [], ROOT, World();
      if destination.None? || NameOf(StripSlash(destination.value.path)) == "" {
        return BAD_REQUEST, uid, top, gone, parent, mid;
      }
      TenantIsPlain(host);
      status, uid, top, gone, parent, mid :=
        MoveTo(host, source, destination.value.host, destination.value.path, overwrite, TenantOf(host));
    }

    /** The uids below a directory; a refused listing leaves the set empty. */
    method ListUids(dir: Uid) returns (uids: set<Uid>, ghost listed: bool)
      requires Valid()
      modifies core`faults, core`refusal
      ensures Valid() && World() == old(World()) && core.faults >= old(core.faults)
      ensures uids == if listed then ChildSet(core.tree, dir) else {}
      ensures core.faults == old(core.faults) && IsDirectory(core.tree, dir) ==> listed
    {
      var listing := core.ListDirectory(dir);
      if listing.Refused? {
        return {}, false;
      }
      var es := listing.value;
      assert forall e :: e in es ==> Lists(core.tree, dir, e);
      return (set e | e in es :: e.uid), true;
    }

    /** Lists again, and takes the first uid that was not there before. */
    method FindCopy(parent: Uid, before: set<Uid>) returns (found: Option<Uid>)
      requires Valid()
      modifies core`faults, core`refusal
      ensures Valid() && World() == old(World()) && core.faults >= old(core.faults)
      ensures found.Some? || (core.faults == old(core.faults) && IsDirectory(core.tree, parent)) ==>
        IsFirstNew(before, ChildSet(core.tree, parent), found)
    {
      var after, listed := ListUids(parent);
      found := FirstNew(before, after);
    }

    /** Finds the copy by the diff and gives it its name. */
    method RenameCopy(parent: Uid, before: set<Uid>, newName: string, ghost copy: Uid, ghost listed: bool)
      returns (failed: Option<int>, renamed: Option<Uid>)
      requires Valid() && Findable(core.tree, parent, before, copy, listed)
      modifies core
      ensures core.contents == old(core.contents)
      ensures Valid() && core.faults >= old(core.faults) && core.used == old(core.used)
      ensures RenamedOrNot(old(core.tree), core.tree, parent, copy, newName, failed, renamed, listed)
      ensures failed.Some? ==> failed.value in CORE_ERRORS
      ensures failed.Some? && core.faults == old(core.faults) ==> failed.value == TransferError(core.refusal.error)
      ensures listed && core.faults == old(core.faults) ==>
        (failed.None? <==> GoodName(newName) && !NameTaken(old(core.tree), parent, newName, copy))
    {
      var found := FindCopy(parent, before);
      if found.None? {
        CopyIsThere(core.tree, parent, before, copy, listed);
        return Some(INTERNAL_ERROR), None;
      }
      DiffFinds(core.tree, parent, before, copy, listed, found);
      var reply := core.Rename(found.value, newName);
      if reply.Refused? {
        return Some(TransferError(reply.error)), None;
      }
      return None, found;
    }

    /** Snapshot, copy, diff, rename. The result of the first listing is not looked at. */
    method CopyAndRename(src: Uid, parent: Uid, oldName: string, newName: string)
      returns (failed: Option<int>, renamed: Option<Uid>, ghost clone: map<Uid, Uid>, ghost listed: bool)
      requires Valid()
      modifies core
      ensures BroughtAlong(old(core.contents), core.contents, clone, failed)
      ensures Valid() && core.faults >= old(core.faults) && resolver.Cache() == old(resolver.Cache())
      ensures CopyOutcome(old(core.tree), old(core.used), core.tree, core.used, src, parent, clone, oldName, newName,
                          failed, renamed, listed)
      ensures failed.Some? ==> failed.value in CORE_ERRORS
      ensures failed.Some? && core.faults == old(core.faults) ==> failed.value == TransferError(core.refusal.error)
      ensures core.faults == old(core.faults) && IsDirectory(old(core.tree), parent) ==> listed
      ensures core.faults == old(core.faults) ==> (failed.None? <==> CanCopy(old(core.tree), parent, oldName, newName))
    {
      ghost var t, used := core.tree, core.used;
      var needRename := newName != oldName;
      var before := {};
      listed, renamed := true, None;
      if needRename {
        before, listed := ListUids(parent);
      }
      var copied;
      copied, clone := core.Copy(src, parent);
      if copied.Refused? {
        return Some(TransferError(copied.error)), None, clone, listed;
      }
      CopiedIsBroughtAlong(old(core.contents), clone, None);
      if !needRename {
        return None, None, clone, listed;
      }
      CopyIsFindable(t, used, src, parent, clone, before, listed, newName);
      failed, renamed := RenameCopy(parent, before, newName, clone[src], listed);
    }

    /** COPY once both ends are found: the remote calls, then the cache. */
    method CopyFound(uid: Uid, parent: Uid, src: string, dst: string, tenant: string)
      returns (failed: Option<int>, renamed: Option<Uid>, ghost clone: map<Uid, Uid>, ghost listed: bool)
      requires Valid()
      modifies core, resolver
      ensures BroughtAlong(old(core.contents), core.contents, clone, failed)
      ensures Valid() && core.faults >= old(core.faults)
      ensures resolver.Cache() == CopyRecorded(old(resolver.Cache()), Segments(dst), renamed, tenant)
      ensures CopyOutcome(old(core.tree), old(core.used), core.tree, core.used, uid, parent, clone,
                          NameOf(src), NameOf(dst), failed, renamed, listed)
      ensures failed.Some? ==> failed.value in CORE_ERRORS
      ensures failed.Some? && core.faults == old(core.faults) ==> failed.value == TransferError(core.refusal.error)
      ensures core.faults == old(core.faults) ==>
        && (failed.None? <==> CanCopy(old(core.tree), parent, NameOf(src), NameOf(dst)))
        && (failed.None? ==> listed)
    {
      failed, renamed, clone, listed := CopyAndRename(uid, parent, NameOf(src), NameOf(dst));
      if renamed.Some? {
        resolver.CreatePathMapping(dst, renamed.value, tenant);
      }
    }

    /** COPY between paths without a trailing slash; `mid` is the world once the destination is cleared and
        both ends are resolved. */
    method TryCopy(host: string, src: string, destHost: string, dst: string, overwrite: string, tenant: string)
      returns (failed: Option<int>, renamed: Option<Uid>, ghost uid: Uid, ghost top: Uid, ghost gone: seq<Uid>,
               ghost parent: Uid, ghost clone: map<Uid, Uid>, ghost listed: bool, ghost mid: World,
               ghost refused: Option<int>)
      requires Valid() && PlainTenant(tenant) && NameOf(dst) != ""
      modifies core, resolver
      ensures BroughtAlong(old(core.contents), core.contents, clone, failed)
      ensures Valid() && mid.used == old(core.used)
      ensures resolver.Cache() == CopyRecorded(mid.cache, Segments(dst), renamed, tenant)
      ensures Cleared(old(core.tree), mid.tree, top, gone, overwrite) && Follows(old(World()), mid, tenant)
      ensures Believed(old(World()), tenant, Segments(dst)) && gone != [] ==> At(old(core.tree), top, Segments(dst))
      ensures CopyOutcome(mid.tree, mid.used, core.tree, core.used, uid, parent, clone, NameOf(src), NameOf(dst),
                          failed, renamed, listed)
      ensures refused == Some(BAD_GATEWAY) <==> !SameAuthority(host, destHost)
      ensures RefusedCleanly(refused, old(core.tree), mid.tree)
      ensures BelievedAround(old(World()), tenant, src, dst) && UniqueNames(old(core.tree))
              && core.faults == old(core.faults) ==>
        && Approached(old(core.tree), mid.tree, host, src, destHost, dst, overwrite, true, refused, uid, parent)
        && CopyTried(mid.tree, src, dst, parent, refused, failed, listed, core.refusal.error)
      ensures refused.Some? ==> World() == mid && failed == refused
      ensures refused.None? ==>
        && Located(old(World()), mid, tenant, src, dst, true, uid, parent)
        && (failed.Some? ==> failed.value in CORE_ERRORS)
    {
      var early, found, under;
      early, found, under, top, gone := Approach(host, src, destHost, dst, overwrite, true, tenant);
      mid, uid, parent, refused := World(), found, under, early;
      if early.Some? {
        failed, renamed, clone, listed := early, None, map[], true;
      } else {
        failed, renamed, clone, listed := CopyFound(found, under, src, dst, tenant);
      }
    }

    /** The same, with what it promises. */
    method CopyTo(host: string, src: string, destHost: string, dst: string, overwrite: string, tenant: string)
      returns (status: int, ghost uid: Uid, ghost top: Uid, ghost gone: seq<Uid>, ghost parent: Uid,
               ghost clone: map<Uid, Uid>, ghost renamed: Option<Uid>, ghost listed: bool)
      requires Valid() && PlainTenant(tenant) && NameOf(dst) != ""
      modifies core, resolver
      ensures BroughtAlong(old(core.contents), core.contents, clone,
                           if status == CREATED then None else Some(status))
      ensures Valid()
      ensures CopyPromise(old(World()), World(), uid, top, gone, parent, clone, renamed, listed, src, dst, tenant,
                          status == CREATED)
      ensures ForbidsOverwrite(overwrite) ==> gone == []
      ensures status == BAD_GATEWAY <==> !SameAuthority(host, destHost)
      ensures BelievedAround(old(World()), tenant, src, dst) && UniqueNames(old(core.tree))
              && core.faults == old(core.faults) ==>
        CopyCleanly(old(core.tree), core.tree, host, src, destHost, dst, overwrite, status, listed, core.refusal.error)
    {
      ghost var w := World();
      ghost var mid, refused;
      var failed, changed;
      failed, changed, uid, top, gone, parent, clone, listed, mid, refused :=
        TryCopy(host, src, destHost, dst, overwrite, tenant);
      renamed := changed;
      status := if failed.Some? then failed.value else CREATED;
      assert failed.None? == (status == CREATED);
      CopyPromised(w, mid, World(), top, gone, uid, parent, clone, src, dst, failed, renamed, listed, tenant);
      if BelievedAround(w, tenant, src, dst) && UniqueNames(w.tree) && core.faults == old(core.faults) {
        SurvivorsOfCopy(w, mid, World(), uid, parent, clone, NameOf(src), NameOf(dst), failed, renamed, listed);
        if failed.None? {
          CleanCopyHasNoTwins(w.tree, mid.tree, core.tree, host, src, destHost, dst, overwrite, uid, parent, gone,
                              clone[uid]);
        }
        CleanCopy(w.tree, mid.tree, core.tree, host, src, destHost, dst, overwrite, refused, uid, parent,
                  failed, listed, core.refusal.error);
      }
    }

    /** COPY. `clone` pairs every copied node with its fresh copy; `listed` tells whether the
        listing before the copy, if one was needed, succeeded. */
    method Copy(host: string, source: string, destination: Option<Destination>, overwrite: string)
      returns (status: int, ghost uid: Uid, ghost top: Uid, ghost gone: seq<Uid>, ghost parent: Uid,
               ghost clone: map<Uid, Uid>, ghost renamed: Option<Uid>, ghost listed: bool)
      requires Valid()
      modifies core, resolver
      ensures BroughtAlong(old(core.contents), core.contents, clone,
                           if status == CREATED then None else Some(status))
      ensures Valid()
      ensures destination.None? || NameOf(StripSlash(destination.value.path)) == "" ==>
        status == BAD_REQUEST && World() == old(World())
      ensures status == BAD_GATEWAY <==>
        && destination.Some? && NameOf(StripSlash(destination.value.path)) != ""
        && !SameAuthority(host, destination.value.host)
      ensures overwrite != "" && overwrite[0] in {'F', 'f'} ==> gone == []
      ensures destination.Some? ==>
        CopyPromise(old(World()), World(), uid, top, gone, parent, clone, renamed, listed, StripSlash(source),
                    StripSlash(destination.value.path), TenantOf(host), status == CREATED)
      ensures destination.Some? && NameOf(StripSlash(destination.value.path)) != "" && UniqueNames(old(core.tree))
              && old(TrustedMove(host, source, destination.value.path)) && core.faults == old(core.faults) ==>
        CopyCleanly(old(core.tree), core.tree, host, StripSlash(source), destination.value.host,
                    StripSlash(destination.value.path), overwrite, status, listed, core.refusal.error)
    {
      uid, top, gone, parent, clone, renamed, listed := ROOT, ROOT, [], ROOT, map[], None, true;
      if destination.None? || NameOf(StripSlash(destination.value.path)) == "" {
        return BAD_REQUEST, uid, top, gone, parent, clone, renamed, listed;
      }
      TenantIsPlain(host);
      status, uid, top, gone, parent, clone, renamed, listed :=
        CopyTo(host, StripSlash(source), destination.value.host, StripSlash(destination.value.path), overwrite,
               TenantOf(host));
    }
  }
}
