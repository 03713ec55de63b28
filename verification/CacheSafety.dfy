/** When the path cache may be believed, what keeps it so, and what a resolver in front of
    such a cache answers in every run. */
module CacheSafety {
  import opened Options
  import opened Paths
  import opened Tree
  import opened TreeEdits
  import opened PathCache

  // ----- the simple thing the cache speeds up -----

  ghost function ChildOf(t: Tree, dir: Uid, name: string): Option<Uid> {
    if exists u :: u in t && t[u].parent == dir && t[u].name == name then
      var u :| u in t && t[u].parent == dir && t[u].name == name;
      Some(u)
    else None
  }

  /** List the root, match the first name, list that node, and so on. */
  ghost function UncachedWalk(t: Tree, segs: seq<Segment>): Option<Uid>
    decreases |segs|
  {
    if segs == [] then Some(ROOT)
    else
      match UncachedWalk(t, segs[..|segs| - 1])
      case None => None
      case Some(dir) => ChildOf(t, dir, segs[|segs| - 1])
  }

  /** With unique sibling names, walking down finds exactly the node that climbs back up. */
  lemma {:induction false} WalkFindsThePath(t: Tree, u: Uid, segs: seq<Segment>)
    requires UniqueNames(t) && ROOT !in t
    ensures UncachedWalk(t, segs) == Some(u) <==> At(t, u, segs)
    decreases |segs|
  {
    if segs != [] {
      var above, name := segs[..|segs| - 1], segs[|segs| - 1];
      if u in t {
        WalkFindsThePath(t, t[u].parent, above);
      }
      var dir := UncachedWalk(t, above);
      if dir.Some? {
        WalkFindsThePath(t, dir.value, above);
      }
    }
  }

  // ----- believing an entry -----

  /** The remote tree, every uid it ever handed out, and this process's cache. */
  datatype World = World(tree: Tree, used: set<Uid>, cache: Cache)

  ghost predicate ValidWorld(w: World) {
    WellFormed(w.tree) && w.tree.Keys <= w.used && ROOT !in w.used
  }

  /** `u` was handed out once, and while it lives it is the node at `segs`. */
  ghost predicate Sound(w: World, u: Uid, segs: seq<Segment>) {
    if segs == [] then u == ROOT else u in w.used && (u in w.tree ==> At(w.tree, u, segs))
  }

  /** The cache may be believed about one path: nothing but the root under the empty tenant, and
      a sound entry if any under this one. */
  ghost predicate Believed(w: World, tenant: string, segs: seq<Segment>) {
    var m := w.cache.pathToUuid;
    GoodSegments(segs) ==>
      && (Key(segs, "") in m ==> segs == [] && m[Key(segs, "")] == ROOT)
      && (Key(segs, tenant) in m ==> Sound(w, m[Key(segs, tenant)], segs))
  }

  /** The cache may be believed about every path. */
  ghost predicate Faithful(w: World, tenant: string) {
    ValidWorld(w) && forall segs :: Believed(w, tenant, segs)
  }

  /** The resolver answers a node for a path it is not at, with every call getting through. */
  ghost predicate MisleadsAt(w: World, tenant: string, segs: seq<Segment>, u: Uid) {
    && GoodSegments(segs) && !At(w.tree, u, segs)
    && Resolves(w.tree, w.cache, tenant, segs, Some(u), w.cache, [], true)
  }

  ghost predicate Misleads(w: World, tenant: string) {
    exists segs, u :: MisleadsAt(w, tenant, segs, u)
  }

  ghost predicate PlainTenant(tenant: string) {
    tenant != "" && ':' !in tenant
  }

  /** The tree changed only by nodes leaving and new nodes arriving under uids never used before. */
  ghost predicate Quiet(w: World, w': World) {
    w.used <= w'.used && forall u :: u in w'.tree && u in w.used ==> u in w.tree && w'.tree[u] == w.tree[u]
  }

  lemma QuietKeepsBelieved(w: World, w': World, tenant: string, segs: seq<Segment>)
    requires ValidWorld(w) && ValidWorld(w') && Quiet(w, w') && w'.cache == w.cache
    requires Believed(w, tenant, segs)
    ensures Believed(w', tenant, segs)
  {
    if GoodSegments(segs) && Key(segs, tenant) in w.cache.pathToUuid {
      var u := w.cache.pathToUuid[Key(segs, tenant)];
      if u in w'.tree {
        AtSurvives(w.tree, w'.tree, u, segs);
      }
    }
  }

  lemma MapKeepsBelieved(w: World, tenant: string, at: seq<Segment>, u: Uid, segs: seq<Segment>)
    requires PlainTenant(tenant) && GoodSegments(at) && Sound(w, u, at)
    requires Believed(w, tenant, segs)
    ensures Believed(w.(cache := Mapped(w.cache, at, u, tenant)), tenant, segs)
  {
    if GoodSegments(segs) {
      KeysAreApart(segs, "", at, tenant);
      KeysAreApart(segs, tenant, at, tenant);
    }
  }

  lemma UnmapKeepsBelieved(w: World, tenant: string, at: seq<Segment>, segs: seq<Segment>)
    requires Believed(w, tenant, segs)
    ensures Believed(w.(cache := Unmapped(w.cache, at, tenant)), tenant, segs)
  {
  }

  lemma {:induction false} RecordKeepsBelieved(w: World, tenant: string, at: seq<Segment>, uids: seq<Uid>,
                                              segs: seq<Segment>)
    requires PlainTenant(tenant) && GoodSegments(at) && w.tree.Keys <= w.used && Chain(w.tree, at, uids)
    requires Believed(w, tenant, segs)
    ensures Believed(w.(cache := Recorded(w.cache, tenant, at, uids)), tenant, segs)
  {
    if uids != [] {
      var k := |uids| - 1;
      ChainPrefix(w.tree, at, uids, k);
      RecordKeepsBelieved(w, tenant, at, uids[..k], segs);
      ChainIsAt(w.tree, at, uids, k + 1);
      MapKeepsBelieved(w.(cache := Recorded(w.cache, tenant, at, uids[..k])), tenant, at[..k + 1], uids[k], segs);
    }
  }

  /** A cache that may be believed about the root maps it to the root. */
  lemma RootIsKept(w: World, tenant: string)
    requires PlainTenant(tenant) && Believed(w, tenant, [])
    ensures RootKept(w.cache, tenant)
  {
  }

  // ----- one call of the resolver -----

  /** Resolving never makes the cache less believable, about any path. */
  lemma ResolveKeepsBelieved(w: World, tenant: string, at: seq<Segment>, answer: Option<Uid>, c': Cache, uids: seq<Uid>,
                             clean: bool, segs: seq<Segment>)
    requires PlainTenant(tenant) && GoodSegments(at) && w.tree.Keys <= w.used
    requires Resolves(w.tree, w.cache, tenant, at, answer, c', uids, clean)
    requires Believed(w, tenant, segs)
    ensures Believed(w.(cache := c'), tenant, segs)
  {
    if c' != w.cache {
      UnmapKeepsBelieved(w, tenant, at, segs);
      RecordKeepsBelieved(w.(cache := Unmapped(w.cache, at, tenant)), tenant, at, uids, segs);
    }
  }

  /** An answer is the node at that path, whichever calls failed. */
  lemma AnswerIsAtPath(w: World, tenant: string, segs: seq<Segment>,
                       answer: Option<Uid>, c': Cache, uids: seq<Uid>, clean: bool)
    requires GoodSegments(segs) && Believed(w, tenant, segs)
    requires Resolves(w.tree, w.cache, tenant, segs, answer, c', uids, clean) && answer.Some?
    ensures At(w.tree, answer.value, segs)
  {
    if segs != [] && Walks(w.tree, Unmapped(w.cache, segs, tenant), tenant, segs, answer, c', uids, clean) {
      ChainIsAt(w.tree, segs, uids, |uids|);
      assert segs[..|segs|] == segs;
    }
  }

  lemma {:induction false} WalkStopsWhereChainStops(t: Tree, segs: seq<Segment>, uids: seq<Uid>, n: nat)
    requires UniqueNames(t) && ROOT !in t && Chain(t, segs, uids) && |uids| < n <= |segs|
    requires NoChildNamed(t, Above(uids, |uids|), segs[|uids|])
    ensures UncachedWalk(t, segs[..n]).None?
  {
    var above, dir := segs[..n - 1], Above(uids, |uids|);
    assert segs[..n][..n - 1] == above;
    if n == |uids| + 1 {
      ChainIsAt(t, segs, uids, |uids|);
      WalkFindsThePath(t, dir, above);
      assert UncachedWalk(t, above) == Some(dir);
      assert ChildOf(t, dir, segs[n - 1]).None?;
    } else {
      WalkStopsWhereChainStops(t, segs, uids, n - 1);
    }
  }

  /** When every remote call got through, the answer is the uncached walk's, absence included. */
  lemma CleanAnswerIsTheWalk(w: World, tenant: string, segs: seq<Segment>,
                             answer: Option<Uid>, c': Cache, uids: seq<Uid>)
    requires WellFormed(w.tree) && UniqueNames(w.tree) && GoodSegments(segs)
    requires Believed(w, tenant, segs)
    requires Resolves(w.tree, w.cache, tenant, segs, answer, c', uids, true)
    ensures answer == UncachedWalk(w.tree, segs)
  {
    if answer.Some? {
      AnswerIsAtPath(w, tenant, segs, answer, c', uids, true);
      WalkFindsThePath(w.tree, answer.value, segs);
    } else {
      WalkStopsWhereChainStops(w.tree, segs, uids, |segs|);
      assert segs[..|segs|] == segs;
    }
  }

  /** A cache that may be believed about every path misleads about none. */
  lemma FaithfulNeverMisleads(w: World, tenant: string)
    requires Faithful(w, tenant)
    ensures !Misleads(w, tenant)
  {
    if Misleads(w, tenant) {
      var segs, u :| MisleadsAt(w, tenant, segs, u);
      assert Believed(w, tenant, segs);
      AnswerIsAtPath(w, tenant, segs, Some(u), w.cache, [], true);
    }
  }

  /** One bad entry for a live node of the right name misleads. */
  lemma BadEntryMisleads(w: World, tenant: string, segs: seq<Segment>)
    requires GoodSegments(segs) && segs != [] && Key(segs, tenant) in w.cache.pathToUuid
    requires var u := w.cache.pathToUuid[Key(segs, tenant)];
             u in w.tree && w.tree[u].name == segs[|segs| - 1] && !At(w.tree, u, segs)
    ensures Misleads(w, tenant)
  {
    var u := w.cache.pathToUuid[Key(segs, tenant)];
    assert Verified(w.tree, w.cache, tenant, segs);
    assert MisleadsAt(w, tenant, segs, u);
  }

  /** After an answer, the tenant's own entry for that path is the answer. */
  lemma AnswerIsRecorded(w: World, tenant: string, segs: seq<Segment>,
                         answer: Option<Uid>, c': Cache, uids: seq<Uid>, clean: bool)
    requires PlainTenant(tenant) && GoodSegments(segs) && segs != [] && Believed(w, tenant, segs)
    requires Resolves(w.tree, w.cache, tenant, segs, answer, c', uids, clean) && answer.Some?
    ensures EntryOf(c'.pathToUuid, Key(segs, tenant)) == answer
  {
    if Walks(w.tree, Unmapped(w.cache, segs, tenant), tenant, segs, answer, c', uids, clean) {
      RecordedEntry(Unmapped(w.cache, segs, tenant), tenant, segs, uids, |segs|);
      assert segs[..|segs|] == segs;
    }
  }

  /** Resolving another path leaves a right entry right. */
  lemma RightEntryStays(t: Tree, c: Cache, tenant: string, at: seq<Segment>, answer: Option<Uid>, c': Cache,
                        uids: seq<Uid>, clean: bool, q: seq<Segment>, u: Uid)
    requires PlainTenant(tenant) && GoodSegments(at) && GoodSegments(q) && q != [] && q != at && UniqueNames(t)
    requires Resolves(t, c, tenant, at, answer, c', uids, clean)
    requires EntryOf(c.pathToUuid, Key(q, tenant)) == Some(u) && At(t, u, q)
    ensures EntryOf(c'.pathToUuid, Key(q, tenant)) == Some(u)
  {
    if c' != c {
      EntryAfterUnmapping(c, at, tenant, q, tenant);
      if q <= at && |q| <= |uids| {
        RecordedEntry(Unmapped(c, at, tenant), tenant, at, uids, |q|);
        ChainIsAt(t, at, uids, |q|);
        assert at[..|q|] == q;
        AtIsInjective(t, u, uids[|q| - 1], q);
      } else {
        forall k | 1 <= k <= |uids|
          ensures Key(q, tenant) != Key(at[..k], tenant)
        {
          KeysAreApart(q, tenant, at[..k], tenant);
        }
        RecordedElsewhere(Unmapped(c, at, tenant), tenant, at, uids, Key(q, tenant));
      }
    }
  }
}
