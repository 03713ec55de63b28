/** What MOVE promises, as statements about the worlds before and after. */
module Moves {
  import opened Options
  import opened Strings
  import opened Paths
  import opened Tree
  import opened TreeEdits
  import opened TreeRemoval
  import opened PathCache
  import opened CacheSafety
  import opened Runs
  import opened Belief
  import opened Relocation

  /** The core allows a relocation: the names are free, the new parent is a directory outside. */
  ghost predicate CanRelocate(t: Tree, uid: Uid, inPlace: bool, parent: Uid, oldName: string, newName: string) {
    && uid in t
    && (inPlace ==> GoodName(newName) && !NameTaken(t, t[uid].parent, newName, uid))
    && (!inPlace ==>
          && IsDirectory(t, parent) && !Within(t, parent, uid) && !NameTaken(t, parent, t[uid].name, uid)
          && (newName != oldName ==> GoodName(newName) && !NameTaken(t, parent, newName, uid)))
  }

  /** The node a relocation of `uid` turns it into. */
  function Relocated(n: Node, inPlace: bool, parent: Uid, oldName: string, newName: string): Node {
    if inPlace then n.(name := newName)
    else Node(if newName != oldName then newName else n.name, parent, n.kind)
  }

  /** The tree after a successful relocation: only that node changed, and it was free to. */
  ghost predicate RelocatedTo(t: Tree, t': Tree, uid: Uid, inPlace: bool, parent: Uid, oldName: string,
                              newName: string) {
    uid in t &&
    var n := Relocated(t[uid], inPlace, parent, oldName, newName);
    t' == t[uid := n] && Replaces(t, uid, n) && !NameTaken(t, n.parent, n.name, uid)
  }

  lemma LandingPlace(t: Tree, t': Tree, uid: Uid, parent: Uid, src: string, dst: string)
    requires WellFormed(t) && WellFormed(t') && NameOf(dst) != "" && uid != ROOT
    requires RelocatedTo(t, t', uid, ParentOf(src) == ParentOf(dst), parent, NameOf(src), NameOf(dst))
    requires At(t, uid, Segments(src))
    requires ParentOf(src) != ParentOf(dst) ==> At(t, parent, Segments(ParentOf(dst)))
    ensures At(t', uid, Segments(dst)) <==> NameOf(src) != "" || ParentOf(src) != ParentOf(dst)
  {
    var from, to := Segments(src), Segments(dst);
    var n := Relocated(t[uid], ParentOf(src) == ParentOf(dst), parent, NameOf(src), NameOf(dst));
    SplitPathSplitsSegments(dst);
    if NameOf(src) != "" {
      SplitPathSplitsSegments(src);
      assert from[..|from| - 1] == Segments(ParentOf(src));
      MovedIsAt(t, uid, n, Segments(ParentOf(dst)));
    } else if ParentOf(src) != ParentOf(dst) {
      MovedIsAt(t, uid, n, Segments(ParentOf(dst)));
    } else {
      EmptyNameIsTheParent(src);
      MovedIsAt(t, uid, n, from[..|from| - 1]);
      if At(t', uid, to) {
        AtIsUnique(t', uid, to, from[..|from| - 1] + [n.name]);
      }
    }
  }

  /** What a MOVE may do to the tree, whatever it answers: nodes are only lost from what was at
      the destination, and no survivor but the source changes; short of 201 the source is
      where it was, or moved under the new parent with its old name. */
  ghost predicate OnlyMoved(t: Tree, t': Tree, uid: Uid, top: Uid, gone: seq<Uid>, parent: Uid, moved: bool) {
    && t'.Keys == t.Keys - Members(gone) && Members(gone) <= Subtree(t, top)
    && (forall v :: v in t' && v != uid ==> t'[v] == t[v])
    && (moved ==> uid in t')
    && (!moved && uid in t' ==> t'[uid] == t[uid] || t'[uid] == t[uid].(parent := parent))
  }

  /** What a 201 means: the resolved source is at the destination exactly when the request was
      on track, and then its whole subtree came along, the walk to the destination finds it,
      and the walk to the source finds nothing. */
  ghost predicate Arrived(t: Tree, t': Tree, uid: Uid, from: seq<Segment>, to: seq<Segment>, onTrack: bool) {
    && At(t, uid, from)
    && (At(t', uid, to) <==> onTrack)
    && (onTrack && UniqueNames(t) ==>
          && Subtree(t', uid) == Subtree(t, uid)
          && UncachedWalk(t', to) == Some(uid)
          && (from != to ==> UncachedWalk(t', from) == None))
  }

  /** The new parent sits where the destination's own path says. */
  lemma NewParentIsAt(t: Tree, t': Tree, uid: Uid, n: Node, to: seq<Segment>)
    requires WellFormed(t') && t' == t[uid := n] && uid in t && uid != ROOT
    requires !Within(t, n.parent, uid) && At(t', uid, to)
    ensures to != [] && At(t, n.parent, to[..|to| - 1])
  {
    ReplaceKeepsSubtree(t, uid, n);
    AtAvoids(t', t, uid, n.parent, to[..|to| - 1]);
  }

  lemma ArrivedWithAll(t: Tree, mid: Tree, top: Uid, gone: seq<Uid>, uid: Uid, n: Node, from: seq<Segment>,
                       to: seq<Segment>)
    requires WellFormed(t) && WellFormed(mid) && UniqueNames(t) && Removal(t, mid, top, gone) && uid != ROOT
    requires gone != [] ==> Members(gone) == Subtree(t, top) && At(t, top, to)
    requires Replaces(mid, uid, n) && !NameTaken(mid, n.parent, n.name, uid)
    requires At(mid, uid, from) && At(mid[uid := n], uid, to)
    ensures Subtree(mid[uid := n], uid) == Subtree(t, uid)
    ensures UncachedWalk(mid[uid := n], to) == Some(uid)
    ensures from != to ==> UncachedWalk(mid[uid := n], from) == None
  {
    RemovalKeepsUnique(t, mid, top, gone);
    ReplaceKeepsWellFormed(mid, uid, n);
    WalksAfterMove(mid, uid, n, from, to);
    NewParentIsAt(mid, mid[uid := n], uid, n, to);
    OverwriteSparesSource(t, mid, top, gone, uid, n.parent, to, to[..|to| - 1]);
    ReplaceKeepsSubtree(mid, uid, n);
  }

  /** The move went through and the rename after it did not. */
  ghost predicate HalfMoved(t: Tree, t': Tree, uid: Uid, parent: Uid) {
    uid in t && !Within(t, parent, uid) && t' == t[uid := t[uid].(parent := parent)]
  }

  /** A half-done MOVE leaves the entry of the old path behind, and that entry misleads. */
  lemma HalfMovedMisleads(w: World, mid: World, w': World, top: Uid, gone: seq<Uid>, uid: Uid, parent: Uid,
                          from: seq<Segment>, tenant: string)
    requires ValidWorld(w) && UniqueNames(w.tree) && Removal(w.tree, mid.tree, top, gone)
    requires HalfMoved(mid.tree, w'.tree, uid, parent) && w'.tree[uid] != w.tree[uid] && w'.cache == mid.cache
    requires GoodSegments(from) && from != [] && At(mid.tree, uid, from)
    requires EntryOf(mid.cache.pathToUuid, Key(from, tenant)) == Some(uid)
    ensures Misleads(w', tenant)
  {
    var above := from[..|from| - 1];
    RemovalKeepsUnique(w.tree, mid.tree, top, gone);
    if At(w'.tree, uid, from) {
      ReplaceKeepsSubtree(mid.tree, uid, w'.tree[uid]);
      AtAvoids(w'.tree, mid.tree, uid, parent, above);
      AtIsInjective(mid.tree, parent, mid.tree[uid].parent, above);
    }
    BadEntryMisleads(w', tenant, from);
  }

  /** Everything a MOVE answered 201 promises about the tree. */
  lemma MoveSucceeded(t: Tree, mid: Tree, t': Tree, top: Uid, gone: seq<Uid>, uid: Uid, parent: Uid,
                      src: string, dst: string)
    requires WellFormed(t) && WellFormed(mid) && WellFormed(t') && uid != ROOT
    requires Removal(t, mid, top, gone) && NameOf(dst) != ""
    requires gone != [] ==> Members(gone) == Subtree(t, top)
    requires RelocatedTo(mid, t', uid, ParentOf(src) == ParentOf(dst), parent, NameOf(src), NameOf(dst))
    ensures OnlyMoved(t, t', uid, top, gone, parent, true)
    ensures && At(mid, uid, Segments(src))
            && (ParentOf(src) != ParentOf(dst) ==> At(mid, parent, Segments(ParentOf(dst))))
            && (gone != [] ==> At(t, top, Segments(dst))) ==>
      Arrived(t, t', uid, Segments(src), Segments(dst), NameOf(src) != "" || ParentOf(src) != ParentOf(dst))
  {
    if && At(mid, uid, Segments(src))
       && (ParentOf(src) != ParentOf(dst) ==> At(mid, parent, Segments(ParentOf(dst)))) {
      var n := Relocated(mid[uid], ParentOf(src) == ParentOf(dst), parent, NameOf(src), NameOf(dst));
      AtStays(mid, t, uid, Segments(src));
      LandingPlace(mid, t', uid, parent, src, dst);
      if At(t', uid, Segments(dst)) && UniqueNames(t) && (gone != [] ==> At(t, top, Segments(dst))) {
        ArrivedWithAll(t, mid, top, gone, uid, n, Segments(src), Segments(dst));
      }
    }
  }

  /** Its last change is a move step of a run. */
  lemma IsMoveStep(mid: World, w': World, uid: Uid, parent: Uid, source: string, dest: string, tenant: string)
    requires ValidWorld(mid) && ValidWorld(w') && w'.used == mid.used && uid != ROOT
    requires NameOf(StripSlash(dest)) != ""
    requires var src, dst := StripSlash(source), StripSlash(dest);
             && RelocatedTo(mid.tree, w'.tree, uid, ParentOf(src) == ParentOf(dst), parent, NameOf(src), NameOf(dst))
             && At(mid.tree, uid, Segments(src))
             && (ParentOf(src) != ParentOf(dst) ==> At(mid.tree, parent, Segments(ParentOf(dst))))
    requires w'.cache == Mapped(Unmapped(mid.cache, Segments(source), tenant), Segments(dest), uid, tenant)
    ensures MoveStep(mid, uid, source, dest, w', tenant)
  {
    var src, dst := StripSlash(source), StripSlash(dest);
    StripSlashKeepsSegments(source);
    StripSlashKeepsSegments(dest);
    SplitPathSplitsSegments(dst);
    LandingPlace(mid.tree, w'.tree, uid, parent, src, dst);
    if NameOf(src) != "" {
      SplitPathSplitsSegments(src);
    }
  }

  /** What a MOVE answered 201 does to belief in the cache. On track, it is kept about every path
      not strictly below the old place. The cache stays faithful exactly when the request was tidy,
      and otherwise it misleads from then on; for a node without children, tidy is on track. */
  ghost predicate MoveSafety(w: World, w': World, uid: Uid, source: string, dest: string, tenant: string) {
    && (StaysOnTrack(source, dest) ==>
          forall q :: Believed(w, tenant, q) && !(Segments(source) < q) ==> Believed(w', tenant, q))
    && (Faithful(w, tenant) && !HasChild(w'.tree, uid) ==>
          && (Faithful(w', tenant) <==> StaysOnTrack(source, dest))
          && (Misleads(w', tenant) <==> !StaysOnTrack(source, dest)))
    && (Faithful(w, tenant) && UniqueNames(w.tree) ==>
          && (Faithful(w', tenant) <==> Tidy(w, uid, source, dest, tenant))
          && (Misleads(w', tenant) <==> !Tidy(w, uid, source, dest, tenant)))
  }

  /** Clearing the destination and resolving both ends does not make a request tidy or untidy. */
  lemma TidyAllAlong(w: World, mid: World, uid: Uid, source: string, dest: string, w': World, tenant: string)
    requires PlainTenant(tenant) && ValidWorld(mid) && UniqueNames(mid.tree)
    requires MoveStep(mid, uid, source, dest, w', tenant)
    requires OnlyOnTheWay(w.cache, mid.cache, tenant, Segments(source), Segments(dest))
    requires StaysOnTrack(source, dest) ==> Subtree(mid.tree, uid) == Subtree(w.tree, uid)
    ensures Tidy(w, uid, source, dest, tenant) <==> Tidy(mid, uid, source, dest, tenant)
  {
    if StaysOnTrack(source, dest) {
      var from, to := Segments(source), Segments(dest);
      NeverBelowItself(mid, uid, source, dest, w', tenant);
      forall q | GoodSegments(q) && from < q
        ensures EntryBelow(w, tenant, uid, from, q) <==> EntryBelow(mid, tenant, uid, from, q)
      {
        assert q <= to ==> from < to;
        assert EntryOf(mid.cache.pathToUuid, Key(q, tenant)) == EntryOf(w.cache.pathToUuid, Key(q, tenant));
      }
    }
  }

  lemma MoveIsSafe(w: World, mid: World, w': World, top: Uid, gone: seq<Uid>, uid: Uid, source: string, dest: string,
                   tenant: string)
    requires PlainTenant(tenant) && ValidWorld(w) && Follows(w, mid, tenant)
    requires Removal(w.tree, mid.tree, top, gone)
    requires MoveStep(mid, uid, source, dest, w', tenant)
    requires OnlyOnTheWay(w.cache, mid.cache, tenant, Segments(source), Segments(dest))
    requires Arrived(w.tree, w'.tree, uid, Segments(source), Segments(dest), StaysOnTrack(source, dest))
    ensures MoveSafety(w, w', uid, source, dest, tenant)
  {
    var from := Segments(source);
    if StaysOnTrack(source, dest) {
      forall q | Believed(w, tenant, q) && !(from < q)
        ensures Believed(w', tenant, q)
      {
        OnTrackKeepsBelieved(mid, uid, source, dest, w', tenant, q);
      }
    }
    if Faithful(w, tenant) {
      FollowingKeepsFaithful(w, mid, tenant);
      if !HasChild(w'.tree, uid) {
        ChildlessMoveIsSafeExactly(mid, uid, source, dest, w', tenant);
      }
      if UniqueNames(w.tree) {
        RemovalKeepsUnique(w.tree, mid.tree, top, gone);
        MoveIsSafeExactly(mid, uid, source, dest, w', tenant);
        ReplaceKeepsSubtree(mid.tree, uid, w'.tree[uid]);
        TidyAllAlong(w, mid, uid, source, dest, w', tenant);
      }
    }
  }

  /** The cache entry went with the node. */
  ghost predicate EntryMoved(m: map<string, Uid>, from: seq<Segment>, to: seq<Segment>, uid: Uid, tenant: string) {
    && Key(to, tenant) in m && m[Key(to, tenant)] == uid
    && (from != to ==> Key(from, tenant) !in m)
  }

  lemma MappedAfterUnmapped(c: Cache, from: seq<Segment>, to: seq<Segment>, uid: Uid, tenant: string)
    requires GoodSegments(from) && GoodSegments(to)
    ensures EntryMoved(Mapped(Unmapped(c, from, tenant), to, uid, tenant).pathToUuid, from, to, uid, tenant)
  {
    if Key(from, tenant) == Key(to, tenant) {
      SameTenantKeys(from, to, tenant);
    }
  }

  /** What every MOVE promises. The tree: nodes are only lost from what was at the destination, and
      no other changes. The cache: no other tenant's entries are touched, and on 201 the entry goes
      with the node. Where the cache could be believed about the paths involved: a 201 means
      arrival, by steps of a run; short of 201 belief is kept exactly if the source is where it was,
      since a half-done MOVE leaves a cache that misleads. */
  ghost predicate MovePromise(w: World, mid: World, w': World, uid: Uid, top: Uid, gone: seq<Uid>, parent: Uid,
                              source: string, dest: string, tenant: string, created: bool) {
    && OnlyMoved(w.tree, w'.tree, uid, top, gone, parent, created)
    && OnlyUnder(w.cache, w'.cache, tenant)
    && (created ==> EntryMoved(w'.cache.pathToUuid, Segments(source), Segments(dest), uid, tenant))
    && (created && BelievedAround(w, tenant, StripSlash(source), StripSlash(dest)) ==>
          && Arrived(w.tree, w'.tree, uid, Segments(source), Segments(dest), StaysOnTrack(source, dest))
          && Follows(w, mid, tenant) && MoveStep(mid, uid, source, dest, w', tenant)
          && MoveSafety(w, w', uid, source, dest, tenant))
    && (!created && (uid in w'.tree ==> w'.tree[uid] == w.tree[uid]) ==> Follows(w, w', tenant))
    && (!created && uid in w'.tree && w'.tree[uid] != w.tree[uid] && UniqueNames(w.tree)
        && BelievedAround(w, tenant, StripSlash(source), StripSlash(dest)) ==>
          Misleads(w', tenant))
  }

  lemma MoveFailed(w: World, mid: World, w': World, top: Uid, gone: seq<Uid>, uid: Uid, parent: Uid,
                   source: string, dest: string, tenant: string)
    requires ValidWorld(w) && Follows(w, mid, tenant) && w'.used == mid.used && w'.cache == mid.cache
    requires Removal(w.tree, mid.tree, top, gone)
    requires w'.tree == mid.tree || HalfMoved(mid.tree, w'.tree, uid, parent)
    requires var src, dst := StripSlash(source), StripSlash(dest);
             w'.tree != mid.tree ==> Located(w, mid, tenant, src, dst, ParentOf(src) != ParentOf(dst), uid, parent)
    ensures MovePromise(w, mid, w', uid, top, gone, parent, source, dest, tenant, false)
  {
    var src, dst := StripSlash(source), StripSlash(dest);
    if uid in w'.tree && w'.tree[uid] == w.tree[uid] {
      assert w'.tree == mid.tree;
    }
    if && uid in w'.tree && w'.tree[uid] != w.tree[uid] && UniqueNames(w.tree) && BelievedAround(w, tenant, src, dst) {
      WithinSelf(mid.tree, uid);
      HalfMovedMisleads(w, mid, w', top, gone, uid, parent, Segments(src), tenant);
    }
  }

  /** Everything a MOVE answered 201 promises. */
  lemma MoveFinished(w: World, mid: World, w': World, top: Uid, gone: seq<Uid>, uid: Uid, parent: Uid,
                     source: string, dest: string, tenant: string)
    requires PlainTenant(tenant) && ValidWorld(w) && ValidWorld(w') && Follows(w, mid, tenant) && uid != ROOT
    requires mid.used == w'.used && Removal(w.tree, mid.tree, top, gone)
    requires gone != [] ==> Members(gone) == Subtree(w.tree, top)
    requires OnlyOnTheWay(w.cache, mid.cache, tenant, Segments(source), Segments(dest))
    requires NameOf(StripSlash(dest)) != ""
    requires gone != [] && Believed(w, tenant, Segments(dest)) ==> At(w.tree, top, Segments(dest))
    requires var src, dst := StripSlash(source), StripSlash(dest);
             && Located(w, mid, tenant, src, dst, ParentOf(src) != ParentOf(dst), uid, parent)
             && RelocatedTo(mid.tree, w'.tree, uid, ParentOf(src) == ParentOf(dst), parent, NameOf(src), NameOf(dst))
    requires w'.cache == Mapped(Unmapped(mid.cache, Segments(source), tenant), Segments(dest), uid, tenant)
    ensures MovePromise(w, mid, w', uid, top, gone, parent, source, dest, tenant, true)
  {
    var src, dst := StripSlash(source), StripSlash(dest);
    StripSlashKeepsSegments(source);
    StripSlashKeepsSegments(dest);
    MappedAfterUnmapped(mid.cache, Segments(source), Segments(dest), uid, tenant);
    MovingIsOurs(mid.cache, tenant, Segments(source), Segments(dest), uid);
    StayingOurs(w.cache, mid.cache, w'.cache, tenant);
    MoveSucceeded(w.tree, mid.tree, w'.tree, top, gone, uid, parent, src, dst);
    if BelievedAround(w, tenant, src, dst) {
      IsMoveStep(mid, w', uid, parent, source, dest, tenant);
      MoveIsSafe(w, mid, w', top, gone, uid, source, dest, tenant);
    }
  }

  lemma DoubledSlashSegments()
    ensures Segments("/a//") == ["a"] && Segments("/a/b") == ["a"] + ["b"]
  {
    RootHasNoSegments();
    SegmentsOfChild("", "a");
    SegmentsOfChild("/a", "b");
    TrailingSlashAddsNothing("/a");
    TrailingSlashAddsNothing("/a/");
    assert "/a" == "" + "/" + "a" && "/a/b" == "/a" + "/" + "b" && "/a/" == "/a" + "/" && "/a//" == "/a/" + "/";
  }

  lemma DoubledSlashNames()
    ensures NameOf("/a/") == "" && ParentOf("/a/") == "/a" && NameOf("/a/b") == "b" && ParentOf("/a/b") == "/a"
  {
    assert "/a/"[2] == '/' && LastIndexOf("/a/", '/') == 2;
    assert "/a/b"[2] == '/' && LastIndexOf("/a/b", '/') == 2;
  }

  /** A source that ends in two slashes: MOVE of "/a//" to "/a/b" renames "a" itself, which ends
      up at "/b", while the answer and the cache say "/a/b", and the next request for "/a/b" is
      given a node that is not there. */
  lemma DoubledSlashGoesAstray(w: World, uid: Uid, tenant: string)
    requires WellFormed(w.tree) && At(w.tree, uid, Segments("/a//")) && !NameTaken(w.tree, ROOT, "b", uid)
    ensures !StaysOnTrack("/a//", "/a/b")
    ensures var t' := w.tree[uid := w.tree[uid].(name := "b")];
            var c' := Mapped(Unmapped(w.cache, Segments("/a//"), tenant), Segments("/a/b"), uid, tenant);
            && RelocatedTo(w.tree, t', uid, true, ROOT, NameOf("/a/"), NameOf("/a/b"))
            && At(t', uid, ["b"]) && !At(t', uid, Segments("/a/b"))
            && Resolves(t', c', tenant, Segments("/a/b"), Some(uid), c', [], true)
  {
    DoubledSlashSegments();
    DoubledSlashNames();
    assert StripSlash("/a//") == "/a/" && StripSlash("/a/b") == "/a/b";
    assert ["a"][..0] == [];
    var n := w.tree[uid].(name := "b");
    var t' := w.tree[uid := n];
    ParentIsOutside(w.tree, uid);
    MovedIsAt(w.tree, uid, n, []);
    ReplaceKeepsWellFormed(w.tree, uid, n);
    if At(t', uid, ["a"] + ["b"]) {
      AtIsUnique(t', uid, ["b"], ["a"] + ["b"]);
    }
    assert (["a"] + ["b"])[1] == "b";
  }
}
