/** Deleting a collection: everything below it first, since the core refuses to remove a
    directory that still has children. */
module TreeRemoval {
  import opened Tree
  import opened TreeEdits
  import opened Core

  ghost function Members(s: seq<Uid>): set<Uid> {
    set u | u in s
  }

  /** Nothing is removed after one of its ancestors, and nothing twice. */
  ghost predicate ChildrenFirst(t: Tree, gone: seq<Uid>) {
    forall i, j :: 0 <= i < j < |gone| ==> !Within(t, gone[j], gone[i])
  }

  /** Removing the nodes of `gone`, in that order, from the subtree at `top` turns `t` into `t'`. */
  ghost predicate Removal(t: Tree, t': Tree, top: Uid, gone: seq<Uid>) {
    && t' == t - Members(gone)
    && (forall u :: u in gone ==> u in t && Within(t, u, top))
    && ChildrenFirst(t, gone)
  }

  lemma RemovalThen(t: Tree, cur: Tree, t': Tree, top: Uid, sub: Uid, gone: seq<Uid>, more: seq<Uid>)
    requires WellFormed(t) && WellFormed(cur)
    requires Removal(t, cur, top, gone) && Removal(cur, t', sub, more) && Within(t, sub, top)
    ensures Removal(t, t', top, gone + more)
  {
    var all := gone + more;
    assert Members(all) == Members(gone) + Members(more);
    forall u | u in more
      ensures Within(t, u, top)
    {
      WithinInLarger(t, cur, u, sub);
      WithinIsTransitive(t, u, sub, top);
    }
    forall i, j | 0 <= i < j < |all|
      ensures !Within(t, all[j], all[i])
    {
      if j >= |gone| && Within(t, all[j], all[i]) {
        assert all[j] == more[j - |gone|] && all[j] in more;
        assert all[i] == if i < |gone| then gone[i] else more[i - |gone|];
        assert all[i] in all && all[i] in t;
        AncestorsSurvive(t, cur, all[j], all[i]);
      }
    }
  }

  lemma RemovalOfOne(t: Tree, u: Uid)
    requires u in t
    ensures Removal(t, t - {u}, u, [u])
  {
    WithinSelf(t, u);
    assert Members([u]) == {u};
  }

  /** Once a directory is childless, everything else of its subtree is gone. */
  lemma ChildlessIsAlone(t: Tree, cur: Tree, dir: Uid, v: Uid)
    requires WellFormed(t) && WellFormed(cur) && Agree(t, cur) && dir in t && !HasChild(cur, dir)
    requires v in t && v in cur && Within(t, v, dir)
    ensures v == dir
  {
    AncestorsSurvive(t, cur, v, dir);
    var d: nat :| Climbs(cur, v, dir, d);
    LeafHasNothingWithin(cur, v, dir, d);
  }

  lemma RemovalKeepsUnique(t: Tree, t': Tree, top: Uid, gone: seq<Uid>)
    requires Removal(t, t', top, gone) && UniqueNames(t)
    ensures UniqueNames(t')
  {
  }

  /** The listed children from `i` on are the children still there. */
  ghost predicate Remaining(t: Tree, dir: Uid, es: seq<Entry>, i: nat) {
    && (forall j :: i <= j < |es| ==> Lists(t, dir, es[j]))
    && (forall u :: u in t && t[u].parent == dir ==> exists j :: i <= j < |es| && es[j].uid == u)
  }

  lemma OneFewerRemains(t: Tree, t': Tree, dir: Uid, es: seq<Entry>, i: nat, gone: seq<Uid>)
    requires WellFormed(t) && i < |es| && Remaining(t, dir, es, i)
    requires forall j, k :: 0 <= j < k < |es| ==> es[j].uid != es[k].uid
    requires Removal(t, t', es[i].uid, gone) && es[i].uid in gone
    ensures Remaining(t', dir, es, i + 1)
  {
    forall j | i + 1 <= j < |es|
      ensures Lists(t', dir, es[j])
    {
      assert Lists(t, dir, es[i]) && Lists(t, dir, es[j]);
      SiblingsAreOutside(t, es[j].uid, es[i].uid);
    }
  }

  /** The directory itself goes last, and then nothing of its subtree is left. */
  lemma WholeSubtreeGone(t: Tree, cur: Tree, dir: Uid, gone: seq<Uid>)
    requires WellFormed(t) && WellFormed(cur) && Removal(t, cur, dir, gone)
    requires dir in cur && !HasChild(cur, dir)
    ensures Removal(t, cur - {dir}, dir, gone + [dir])
    ensures Members(gone + [dir]) == Subtree(t, dir)
  {
    RemovalOfOne(cur, dir);
    WithinSelf(t, dir);
    RemovalThen(t, cur, cur - {dir}, dir, dir, gone, [dir]);
    forall v | v in Subtree(t, dir)
      ensures v in gone + [dir]
    {
      if v in cur {
        ChildlessIsAlone(t, cur, dir, v);
      }
    }
  }

  lemma ChildSubtreeIsSmaller(t: Tree, cur: Tree, dir: Uid, e: Uid)
    requires WellFormed(t) && WellFormed(cur) && cur.Keys <= t.Keys && Agree(t, cur)
    requires e in cur && cur[e].parent == dir
    ensures Within(t, e, dir)
    ensures Subtree(cur, e) + {e} < Subtree(t, dir) + {dir}
  {
    ChildWithin(t, e);
    forall v | v in Subtree(cur, e)
      ensures v in Subtree(t, dir)
    {
      WithinInLarger(t, cur, v, e);
      WithinIsTransitive(t, v, e, dir);
    }
    ParentIsOutside(cur, e);
    WithinSelf(cur, e);
    assert dir !in Subtree(cur, e) + {e};
  }

  lemma FileIsChildless(t: Tree, u: Uid)
    requires WellFormed(t) && u in t && t[u].kind.File?
    ensures !HasChild(t, u)
  {
    forall v | v in t
      ensures t[v].parent != u
    {
      assert NodeFits(t, v);
    }
  }

  /** Removes one listed child, a file directly and a directory with everything below it. */
  method RemoveEntry(core: FileCore, ghost dir: Uid, e: Entry) returns (ok: bool, error: string, ghost gone: seq<Uid>)
    requires core.Valid() && Lists(core.tree, dir, e)
    modifies core
    ensures core.Valid() && core.used == old(core.used) && core.faults >= old(core.faults)
    ensures core.removed == old(core.removed) + gone
    ensures !ok ==> error == core.refusal.error && core.refusal.call in {OnList, OnRemove}
    ensures core.contents == old(core.contents)
    ensures Removal(old(core.tree), core.tree, e.uid, gone)
    ensures ok ==> e.uid in gone
    ensures core.faults == old(core.faults) ==> ok
    decreases Subtree(core.tree, e.uid) + {e.uid}, 1
  {
    gone := [];
    WithinSelf(core.tree, e.uid);
    if e.kind.Directory? {
      ok, error, gone := RemoveTreeRecursive(core, e.uid);
    } else {
      FileIsChildless(core.tree, e.uid);
      var reply := core.Remove(e.uid, File);
      if reply.Refused? {
        return false, reply.error, gone;
      }
      RemovalOfOne(old(core.tree), e.uid);
      return true, "", [e.uid];
    }
  }

  /** Depth-first removal; false as soon as one call is refused. */
  method RemoveTreeRecursive(core: FileCore, dir: Uid) returns (ok: bool, error: string, ghost gone: seq<Uid>)
    requires core.Valid()
    modifies core
    ensures core.Valid() && core.used == old(core.used) && core.faults >= old(core.faults)
    ensures core.removed == old(core.removed) + gone
    ensures !ok ==> error == core.refusal.error && core.refusal.call in {OnList, OnRemove}
    ensures core.contents == old(core.contents)
    ensures Removal(old(core.tree), core.tree, dir, gone)
    ensures ok ==> dir in old(core.tree) && Members(gone) == Subtree(old(core.tree), dir)
    ensures !ok ==> dir !in gone
    ensures core.faults == old(core.faults) && dir in old(core.tree) && old(core.tree)[dir].kind.Directory? ==> ok
    decreases Subtree(core.tree, dir) + {dir}, 0
  {
    gone := [];
    ghost var t := core.tree;
    var listing := core.ListDirectory(dir);
    if listing.Refused? {
      return false, listing.error, gone;
    }
    var es := listing.value;
    for i := 0 to |es|
      invariant core.Valid() && core.used == old(core.used) && core.faults >= old(core.faults)
      invariant core.removed == old(core.removed) + gone && core.contents == old(core.contents)
      invariant Removal(t, core.tree, dir, gone) && dir !in gone
      invariant Remaining(core.tree, dir, es, i)
    {
      ghost var cur, more := core.tree, [];
      assert Lists(cur, dir, es[i]);
      ChildSubtreeIsSmaller(t, cur, dir, es[i].uid);
      ok, error, more := RemoveEntry(core, dir, es[i]);
      RemovalThen(t, cur, core.tree, dir, es[i].uid, gone, more);
      ParentIsOutside(cur, es[i].uid);
      gone := gone + more;
      if !ok {
        return false, error, gone;
      }
      OneFewerRemains(cur, core.tree, dir, es, i, more);
    }
    ghost var cur := core.tree;
    var reply := core.Remove(dir, Directory);
    if reply.Refused? {
      return false, reply.error, gone;
    }
    WholeSubtreeGone(t, cur, dir, gone);
    return true, "", gone + [dir];
  }
}
