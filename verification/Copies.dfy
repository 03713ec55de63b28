/** What COPY promises, as statements about the worlds before and after. */
module Copies {
  import opened Options
  import opened Paths
  import opened Tree
  import opened TreeEdits
  import opened TreeRemoval
  import opened PathCache
  import opened CacheSafety
  import opened Belief
  import opened CopyDiff
  import opened Transfers

  /** The core allows a copy under its final name. */
  ghost predicate CanCopy(t: Tree, parent: Uid, oldName: string, newName: string) {
    IsDirectory(t, parent) && (newName != oldName ==> GoodName(newName) && !NameTaken(t, parent, newName, ROOT))
  }

  lemma NameTakenBesidesCopy(t: Tree, full: Tree, parent: Uid, copy: Uid, name: string)
    requires Extends(t, full) && ROOT !in t && copy !in t && ChildSet(full, parent) == ChildSet(t, parent) + {copy}
    ensures NameTaken(full, parent, name, copy) <==> NameTaken(t, parent, name, ROOT)
  {
    if NameTaken(full, parent, name, copy) {
      var v :| v in full && v != copy && full[v].parent == parent && full[v].name == name;
      assert v in ChildSet(full, parent) && v in ChildSet(t, parent);
    }
    if NameTaken(t, parent, name, ROOT) {
      var v :| v in t && v != ROOT && t[v].parent == parent && t[v].name == name;
      assert v in full && v != copy;
    }
  }

  /** The tree after COPY's last call: untouched, or copied into, with one child of the
      destination renamed when the names differ and everything succeeded. */
  ghost predicate CopyOutcome(t: Tree, used: set<Uid>, t': Tree, used': set<Uid>, src: Uid, parent: Uid,
                              clone: map<Uid, Uid>,
                              oldName: string, newName: string, failed: Option<int>, renamed: Option<Uid>, listed: bool)
  {
    || (failed.Some? && renamed.None? && t' == t && used' == used)
    || (CloneFits(t, used, src, clone) && IsDirectory(t, parent) && used' == used + clone.Values
        && var full := t + CopyOf(t, src, parent, clone);
           match renamed
           case None => t' == full && (failed.None? ==> oldName == newName)
           case Some(x) =>
             && failed.None? && oldName != newName && x in ChildSet(full, parent) && (listed ==> x == clone[src])
             && GoodName(newName) && !NameTaken(full, parent, newName, x)
             && t' == full[x := full[x].(name := newName)])
  }

  /** What the diff goes by: `copy` is a child that the first listing did not have, and with a
      complete first listing it is the only one. */
  ghost predicate Findable(full: Tree, parent: Uid, before: set<Uid>, copy: Uid, listed: bool) {
    && IsDirectory(full, parent) && copy in ChildSet(full, parent) && copy !in before
    && (listed ==> ChildSet(full, parent) == before + {copy})
  }

  /** One child was renamed, which with a complete first listing is the copy, or nothing was. */
  ghost predicate RenamedOrNot(full: Tree, t': Tree, parent: Uid, copy: Uid, newName: string,
                               failed: Option<int>, renamed: Option<Uid>, listed: bool)
  {
    match renamed
    case None => failed.Some? && t' == full
    case Some(x) =>
      && failed.None? && x in ChildSet(full, parent) && (listed ==> x == copy)
      && GoodName(newName) && !NameTaken(full, parent, newName, x)
      && t' == full[x := full[x].(name := newName)]
  }

  /** What the diff finds: something, and with a complete first listing the copy. */
  lemma DiffFinds(full: Tree, parent: Uid, before: set<Uid>, copy: Uid, listed: bool, found: Option<Uid>)
    requires Findable(full, parent, before, copy, listed) && IsFirstNew(before, ChildSet(full, parent), found)
    ensures found.Some? && found.value in ChildSet(full, parent)
    ensures listed ==> found == Some(copy)
  {
    if listed {
      CompleteListingFindsTheCopy(before, copy, found);
    }
  }

  lemma CopyIsThere(full: Tree, parent: Uid, before: set<Uid>, copy: Uid, listed: bool)
    requires Findable(full, parent, before, copy, listed)
    ensures !IsFirstNew(before, ChildSet(full, parent), None)
  {
    assert copy in ChildSet(full, parent) && copy !in before;
  }

  lemma CopyIsFindable(t: Tree, used: set<Uid>, src: Uid, parent: Uid, clone: map<Uid, Uid>, before: set<Uid>,
                       listed: bool, newName: string)
    requires WellFormed(t) && t.Keys <= used && ROOT !in used
    requires CloneFits(t, used, src, clone) && IsDirectory(t, parent)
    requires before == if listed then ChildSet(t, parent) else {}
    ensures var full := t + CopyOf(t, src, parent, clone);
            && Findable(full, parent, before, clone[src], listed)
            && (NameTaken(full, parent, newName, clone[src]) <==> NameTaken(t, parent, newName, ROOT))
  {
    CopyAddsOneChild(t, used, src, parent, clone);
    CopyExtends(t, used, src, parent, clone);
    NameTakenBesidesCopy(t, t + CopyOf(t, src, parent, clone), parent, clone[src], newName);
  }

  /** What a COPY may do to the tree, whatever it answers: nodes are only lost from what was at
      the destination, only fresh clones arrive, and no surviving node changes, unless the
      snapshot was incomplete and an old child was renamed in the copy's stead. */
  ghost predicate OnlyCopied(t: Tree, used: set<Uid>, t': Tree, used': set<Uid>, top: Uid, gone: seq<Uid>,
                             clone: map<Uid, Uid>, renamed: Option<Uid>, listed: bool)
  {
    && Members(gone) <= Subtree(t, top)
    && (|| (used' == used && t'.Keys == t.Keys - Members(gone))
        || (clone.Values !! used && used' == used + clone.Values && t'.Keys == t.Keys - Members(gone) + clone.Values))
    && (forall v :: v in t && v in t' && (listed || renamed != Some(v)) ==> t'[v] == t[v])
  }

  ghost predicate Mirrored(t: Tree, t': Tree, clone: map<Uid, Uid>, v: Uid)
    requires v in clone && v in t
  {
    t[v].parent in clone && clone[v] in t' && t'[clone[v]] == Node(t[v].name, clone[t[v].parent], t[v].kind)
  }

  /** What a 201 means: the destination's parent has exactly one more child, under the
      destination's name, and what is below it mirrors the subtree of the source. */
  ghost predicate CopyArrived(t: Tree, used: set<Uid>, t': Tree, gone: seq<Uid>, src: Uid, parent: Uid,
                              clone: map<Uid, Uid>, name: string)
  {
    && src in clone && clone.Keys <= t.Keys && clone.Keys == Subtree(t - Members(gone), src)
    && clone.Values !! used && clone.Values <= t'.Keys
    && (forall v, w {:trigger clone[v], clone[w]} :: v in clone && w in clone && clone[v] == clone[w] ==> v == w)
    && ChildSet(t', parent) == ChildSet(t - Members(gone), parent) + {clone[src]}
    && t'[clone[src]] == Node(name, parent, t[src].kind)
    && (forall v {:trigger Mirrored(t, t', clone, v)} :: v in clone && v != src ==> Mirrored(t, t', clone, v))
  }

  lemma CopiedMirrors(t: Tree, used: set<Uid>, src: Uid, dst: Uid, clone: map<Uid, Uid>, name: string, v: Uid)
    requires CloneFits(t, used, src, clone) && v in clone && v != src
    ensures Mirrored(t, Copied(t, src, dst, clone, name), clone, v)
  {
    var added := CopyOf(t, src, dst, clone);
    assert clone[v] in added && added[clone[v]] == CloneNode(t, src, dst, clone, v);
    assert clone[v] != clone[src];
  }

  lemma OutcomeIsQuiet(mid: World, w': World, uid: Uid, parent: Uid, clone: map<Uid, Uid>,
                       oldName: string, newName: string, failed: Option<int>, renamed: Option<Uid>, listed: bool,
                       tenant: string)
    requires ValidWorld(mid) && ValidWorld(w') && w'.cache == mid.cache && listed
    requires CopyOutcome(mid.tree, mid.used, w'.tree, w'.used, uid, parent, clone, oldName, newName,
                         failed, renamed, listed)
    ensures Follows(mid, w', tenant)
  {
    if w'.tree != mid.tree || w'.used != mid.used {
      CopyExtends(mid.tree, mid.used, uid, parent, clone);
    }
    ChangingQuietly(mid, w', tenant);
  }

  lemma OutcomeKeeps(t: Tree, mid: Tree, used: set<Uid>, t': Tree, used': set<Uid>, top: Uid, gone: seq<Uid>,
                     uid: Uid, parent: Uid,
                     clone: map<Uid, Uid>, oldName: string, newName: string, failed: Option<int>, renamed: Option<Uid>,
                     listed: bool)
    requires Removal(t, mid, top, gone) && t.Keys <= used
    requires CopyOutcome(mid, used, t', used', uid, parent, clone, oldName, newName, failed, renamed, listed)
    ensures OnlyCopied(t, used, t', used', top, gone, clone, renamed, listed)
  {
    if t' != mid || used' != used {
      CopyExtends(mid, used, uid, parent, clone);
    }
  }

  lemma OutcomeIsCopied(mid: Tree, used: set<Uid>, t': Tree, used': set<Uid>, uid: Uid, parent: Uid,
                        clone: map<Uid, Uid>, oldName: string, newName: string, renamed: Option<Uid>)
    requires WellFormed(mid) && mid.Keys <= used
    requires CopyOutcome(mid, used, t', used', uid, parent, clone, oldName, newName, None, renamed, true)
    requires oldName == newName ==> mid[uid].name == oldName
    ensures CloneFits(mid, used, uid, clone) && t' == Copied(mid, uid, parent, clone, newName)
    ensures GoodName(newName) && IsDirectory(mid, parent)
    ensures renamed.Some? ==> renamed == Some(clone[uid])
  {
    var full, c := mid + CopyOf(mid, uid, parent, clone), clone[uid];
    assert full[c] == CloneNode(mid, uid, parent, clone, uid) == Node(mid[uid].name, parent, mid[uid].kind);
    assert NodeFits(mid, uid);
    if renamed.None? {
      assert full == full[c := full[c]];
    }
  }

  lemma OutcomeArrived(t: Tree, mid: Tree, used: set<Uid>, t': Tree, used': set<Uid>, top: Uid, gone: seq<Uid>,
                       uid: Uid, parent: Uid,
                       clone: map<Uid, Uid>, oldName: string, newName: string, renamed: Option<Uid>)
    requires WellFormed(mid) && mid.Keys <= used && ROOT !in used && Removal(t, mid, top, gone)
    requires CopyOutcome(mid, used, t', used', uid, parent, clone, oldName, newName, None, renamed, true)
    requires oldName == newName ==> mid[uid].name == oldName
    ensures CopyArrived(t, used, t', gone, uid, parent, clone, newName)
    ensures Extends(mid, t')
    ensures renamed.Some? ==> renamed == Some(clone[uid])
  {
    OutcomeIsCopied(mid, used, t', used', uid, parent, clone, oldName, newName, renamed);
    CopiedAddsOneChild(mid, used, uid, parent, clone, newName);
    CloneIsSubtree(mid, used, uid, clone);
    forall v | v in clone && v != uid
      ensures Mirrored(t, t', clone, v)
    {
      CopiedMirrors(mid, used, uid, parent, clone, newName, v);
    }
  }

  /** Whether a COPY leaves twin names: it does exactly when the destination's name was still
      taken after clearing, and where it does not, the walk to the destination finds the copy. */
  ghost predicate TwinsExactlyIfTaken(t: Tree, t': Tree, gone: seq<Uid>, parent: Uid, dst: string, copy: Uid) {
    && (UniqueNames(t') <==> !NameTaken(t - Members(gone), parent, NameOf(dst), ROOT))
    && (UniqueNames(t') ==> UncachedWalk(t', Segments(dst)) == Some(copy))
  }

  lemma CopyMakesTwinsExactly(t: Tree, mid: Tree, used: set<Uid>, t': Tree, used': set<Uid>, top: Uid, gone: seq<Uid>,
                              uid: Uid, parent: Uid, clone: map<Uid, Uid>, oldName: string, dst: string,
                              renamed: Option<Uid>)
    requires UniqueNames(t) && WellFormed(mid) && mid.Keys <= used && ROOT !in used && Removal(t, mid, top, gone)
    requires CopyOutcome(mid, used, t', used', uid, parent, clone, oldName, NameOf(dst), None, renamed, true)
    requires oldName == NameOf(dst) ==> mid[uid].name == oldName
    requires At(t', clone[uid], Segments(dst)) && ROOT !in t'
    ensures TwinsExactlyIfTaken(t, t', gone, parent, dst, clone[uid])
    ensures renamed.Some? ==> UniqueNames(t')
  {
    OutcomeIsCopied(mid, used, t', used', uid, parent, clone, oldName, NameOf(dst), renamed);
    RemovalKeepsUnique(t, mid, top, gone);
    CopiedIsUniqueExactly(mid, used, uid, parent, clone, NameOf(dst));
    if UniqueNames(t') {
      WalkFindsThePath(t', clone[uid], Segments(dst));
    }
    if renamed.Some? {
      var full := mid + CopyOf(mid, uid, parent, clone);
      CopyExtends(mid, used, uid, parent, clone);
      CopyAddsOneChild(mid, used, uid, parent, clone);
      NameTakenBesidesCopy(mid, full, parent, clone[uid], NameOf(dst));
    }
  }

  /** Once everything at the destination is cleared, its name is free. */
  lemma ClearedNameIsFree(t: Tree, parent: Uid, dst: string)
    requires WellFormed(t) && UniqueNames(t) && NameOf(dst) != ""
    requires At(ClearedTree(t, Segments(dst)), parent, Segments(ParentOf(dst)))
    ensures !NameTaken(ClearedTree(t, Segments(dst)), parent, NameOf(dst), ROOT)
  {
    var cleared, to := ClearedTree(t, Segments(dst)), Segments(dst);
    SplitPathSplitsSegments(dst);
    if NameTaken(cleared, parent, NameOf(dst), ROOT) {
      var v :| v in cleared && v != ROOT && cleared[v].parent == parent && cleared[v].name == NameOf(dst);
      AtChild(cleared, v, Segments(ParentOf(dst)));
      AtStays(cleared, t, v, to);
      WalkFindsThePath(t, v, to);
      WithinSelf(t, v);
    }
  }

  /** What holds once the last remote call has returned, before the copy is recorded. */
  lemma CopyReached(w: World, mid: World, w': World, top: Uid, gone: seq<Uid>, uid: Uid, parent: Uid, clone: map<Uid,
                    Uid>,
                     src: string, dst: string, failed: Option<int>, renamed: Option<Uid>, listed: bool, tenant: string)
    requires ValidWorld(w) && ValidWorld(w') && Follows(w, mid, tenant) && mid.used == w.used && w'.cache == mid.cache
    requires Removal(w.tree, mid.tree, top, gone) && NameOf(dst) != ""
    requires CopyOutcome(mid.tree, mid.used, w'.tree, w'.used, uid, parent, clone, NameOf(src), NameOf(dst),
                         failed, renamed, listed)
    ensures OnlyCopied(w.tree, w.used, w'.tree, w'.used, top, gone, clone, renamed, listed)
    ensures listed ==> Follows(w, w', tenant)
    ensures && failed.None? && listed && At(mid.tree, uid, Segments(src))
            && At(mid.tree, parent, Segments(ParentOf(dst))) ==>
      && CopyArrived(w.tree, w.used, w'.tree, gone, uid, parent, clone, NameOf(dst))
      && At(w'.tree, clone[uid], Segments(dst))
      && (renamed.Some? ==> renamed == Some(clone[uid]))
  {
    OutcomeKeeps(w.tree, mid.tree, mid.used, w'.tree, w'.used, top, gone, uid, parent, clone, NameOf(src), NameOf(dst),
                 failed, renamed, listed);
    if listed {
      OutcomeIsQuiet(mid, w', uid, parent, clone, NameOf(src), NameOf(dst), failed, renamed, listed, tenant);
      Chaining(w, mid, w', tenant);
    }
    if failed.None? && listed && At(mid.tree, uid, Segments(src)) && At(mid.tree, parent, Segments(ParentOf(dst))) {
      if NameOf(src) == NameOf(dst) {
        SplitPathSplitsSegments(src);
      }
      OutcomeArrived(w.tree, mid.tree, mid.used, w'.tree, w'.used, top, gone, uid, parent, clone, NameOf(src),
                     NameOf(dst), renamed);
      SplitPathSplitsSegments(dst);
      AtStays(mid.tree, w'.tree, parent, Segments(ParentOf(dst)));
      AtChild(w'.tree, clone[uid], Segments(ParentOf(dst)));
    }
  }

  /** The cache after a COPY: a renamed copy is recorded, one that kept its name is not. */
  function CopyRecorded(c: Cache, to: seq<Segment>, renamed: Option<Uid>, tenant: string): Cache {
    match renamed
    case None => c
    case Some(x) => Mapped(c, to, x, tenant)
  }

  lemma CopyingIsOurs(c: Cache, c1: Cache, to: seq<Segment>, renamed: Option<Uid>, tenant: string)
    requires ':' !in tenant && GoodSegments(to) && OnlyUnder(c, c1, tenant)
    ensures OnlyUnder(c, CopyRecorded(c1, to, renamed, tenant), tenant)
  {
    if renamed.Some? {
      MappingIsOurs(c1, tenant, to, renamed.value);
      StayingOurs(c, c1, CopyRecorded(c1, to, renamed, tenant), tenant);
    }
  }

  /** Once the destination is cleared, COPY loses no node. */
  lemma SurvivorsOfCopy(w: World, mid: World, w': World, uid: Uid, parent: Uid, clone: map<Uid, Uid>,
                        oldName: string, newName: string, failed: Option<int>, renamed: Option<Uid>, listed: bool)
    requires ValidWorld(w) && ValidWorld(mid) && mid.used == w.used
    requires CopyOutcome(mid.tree, mid.used, w'.tree, w'.used, uid, parent, clone, oldName, newName,
                         failed, renamed, listed)
    ensures forall u :: u in w.tree ==> (u in w'.tree <==> u in mid.tree)
  {
  }

  /** Everything a COPY promises. */
  lemma CopyFinished(w: World, mid: World, w': World, top: Uid, gone: seq<Uid>, uid: Uid, parent: Uid,
                     clone: map<Uid, Uid>, src: string, dst: string, failed: Option<int>, renamed: Option<Uid>,
                     listed: bool, tenant: string)
    requires PlainTenant(tenant) && ValidWorld(w) && ValidWorld(w') && Follows(w, mid, tenant) && mid.used == w.used
    requires w'.cache == CopyRecorded(mid.cache, Segments(dst), renamed, tenant)
    requires Removal(w.tree, mid.tree, top, gone) && NameOf(dst) != ""
    requires CopyOutcome(mid.tree, mid.used, w'.tree, w'.used, uid, parent, clone, NameOf(src), NameOf(dst),
                         failed, renamed, listed)
    ensures OnlyCopied(w.tree, w.used, w'.tree, w'.used, top, gone, clone, renamed, listed)
    ensures failed.Some? && listed ==> Follows(w, w', tenant)
    ensures && failed.None? && listed && At(mid.tree, uid, Segments(src))
            && At(mid.tree, parent, Segments(ParentOf(dst))) ==>
      && CopyArrived(w.tree, w.used, w'.tree, gone, uid, parent, clone, NameOf(dst))
      && At(w'.tree, clone[uid], Segments(dst))
      && Follows(w, w', tenant)
  {
    var w1 := w'.(cache := mid.cache);
    CopyReached(w, mid, w1, top, gone, uid, parent, clone, src, dst, failed, renamed, listed, tenant);
    if renamed.Some? && listed && At(w'.tree, renamed.value, Segments(dst)) {
      Mapping(w1, tenant, Segments(dst), renamed.value);
      Chaining(w, w1, w', tenant);
    }
  }

  /** The same about twin names. */
  lemma CopyFinishedTwins(w: World, mid: World, w': World, top: Uid, gone: seq<Uid>, uid: Uid, parent: Uid,
                          clone: map<Uid, Uid>, src: string, dst: string, renamed: Option<Uid>)
    requires ValidWorld(w) && ValidWorld(mid) && ValidWorld(w') && UniqueNames(w.tree)
    requires Removal(w.tree, mid.tree, top, gone)
    requires CopyOutcome(mid.tree, mid.used, w'.tree, w'.used, uid, parent, clone, NameOf(src), NameOf(dst),
                         None, renamed, true)
    requires NameOf(dst) != "" && uid in clone
    requires At(mid.tree, uid, Segments(src)) && At(w'.tree, clone[uid], Segments(dst))
    ensures TwinsExactlyIfTaken(w.tree, w'.tree, gone, parent, dst, clone[uid])
    ensures renamed.Some? ==> UniqueNames(w'.tree)
  {
    if NameOf(src) == NameOf(dst) {
      SplitPathSplitsSegments(src);
    }
    CopyMakesTwinsExactly(w.tree, mid.tree, mid.used, w'.tree, w'.used, top, gone, uid, parent, clone,
                          NameOf(src), dst, renamed);
  }

  /** What every COPY promises. The tree: nodes are only lost from what was at the destination, fresh
      ones only arrive as clones, and none changes unless the first listing was incomplete. The
      cache: no other tenant's entries are touched, and a renamed copy is recorded. Where the cache
      could be believed about source and new parent, a 201 after a complete first listing means a
      copy at the destination, with twin names exactly if its name was taken; and belief is kept. */
  ghost predicate CopyPromise(w: World, w': World, uid: Uid, top: Uid, gone: seq<Uid>, parent: Uid,
                              clone: map<Uid, Uid>, renamed: Option<Uid>, listed: bool, src: string, dst: string,
                              tenant: string, created: bool) {
    var believed := Believed(w, tenant, Segments(src)) && Believed(w, tenant, Segments(ParentOf(dst)));
    && OnlyCopied(w.tree, w.used, w'.tree, w'.used, top, gone, clone, renamed, listed)
    && OnlyUnder(w.cache, w'.cache, tenant)
    && (renamed.Some? ==> EntryOf(w'.cache.pathToUuid, Key(Segments(dst), tenant)) == renamed)
    && (gone != [] && Believed(w, tenant, Segments(dst)) ==> At(w.tree, top, Segments(dst)))
    && (created && listed && believed ==>
          && CopyArrived(w.tree, w.used, w'.tree, gone, uid, parent, clone, NameOf(dst))
          && At(w'.tree, clone[uid], Segments(dst))
          && (UniqueNames(w.tree) ==>
                && TwinsExactlyIfTaken(w.tree, w'.tree, gone, parent, dst, clone[uid])
                && (renamed.Some? ==> UniqueNames(w'.tree))))
    && (listed && (created ==> believed) ==> Follows(w, w', tenant))
  }

  lemma CopyPromised(w: World, mid: World, w': World, top: Uid, gone: seq<Uid>, uid: Uid, parent: Uid,
                     clone: map<Uid, Uid>, src: string, dst: string, failed: Option<int>, renamed: Option<Uid>,
                     listed: bool, tenant: string)
    requires PlainTenant(tenant) && ValidWorld(w) && ValidWorld(w') && Follows(w, mid, tenant) && mid.used == w.used
    requires w'.cache == CopyRecorded(mid.cache, Segments(dst), renamed, tenant)
    requires Removal(w.tree, mid.tree, top, gone) && NameOf(dst) != ""
    requires gone != [] && Believed(w, tenant, Segments(dst)) ==> At(w.tree, top, Segments(dst))
    requires CopyOutcome(mid.tree, mid.used, w'.tree, w'.used, uid, parent, clone, NameOf(src), NameOf(dst),
                         failed, renamed, listed)
    requires failed.None? ==> Located(w, mid, tenant, src, dst, true, uid, parent)
    ensures CopyPromise(w, w', uid, top, gone, parent, clone, renamed, listed, src, dst, tenant, failed.None?)
  {
    CopyFinished(w, mid, w', top, gone, uid, parent, clone, src, dst, failed, renamed, listed, tenant);
    CopyingIsOurs(w.cache, mid.cache, Segments(dst), renamed, tenant);
    if && failed.None? && listed && UniqueNames(w.tree)
       && Believed(w, tenant, Segments(src)) && Believed(w, tenant, Segments(ParentOf(dst))) {
      CopyFinishedTwins(w, mid, w', top, gone, uid, parent, clone, src, dst, renamed);
    }
  }
}
