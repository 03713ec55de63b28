/** What one successful call of the remote core does to the tree, and why the tree
    stays well formed: adding a node, removing a leaf, moving or renaming a node,
    and copying a subtree. */
module TreeEdits {
  import opened Paths
  import opened Tree

  ghost predicate Extends(t: Tree, t': Tree) {
    forall u :: u in t ==> u in t' && t'[u] == t[u]
  }

  predicate NameTaken(t: Tree, parent: Uid, name: string, besides: Uid) {
    exists v :: v in t && v != besides && t[v].parent == parent && t[v].name == name
  }

  predicate HasChild(t: Tree, u: Uid) {
    exists v :: v in t && t[v].parent == u
  }

  lemma {:induction false} AtStays(t: Tree, t': Tree, u: Uid, segs: seq<Segment>)
    requires Extends(t, t') && At(t, u, segs)
    ensures At(t', u, segs)
    decreases |segs|
  {
    if segs != [] {
      AtStays(t, t', t[u].parent, segs[..|segs| - 1]);
    }
  }

  lemma RootedStays(t: Tree, t': Tree, u: Uid)
    requires Extends(t, t') && Rooted(t, u)
    ensures Rooted(t', u)
  {
    var segs :| At(t, u, segs);
    AtStays(t, t', u, segs);
  }

  lemma RootedChild(t: Tree, u: Uid)
    requires u in t && Rooted(t, t[u].parent)
    ensures Rooted(t, u)
  {
    var segs :| At(t, t[u].parent, segs);
    AtChild(t, u, segs);
  }

  // ----- adding a node -----

  lemma AddKeepsWellFormed(t: Tree, u: Uid, n: Node)
    requires WellFormed(t) && u !in t && u != ROOT && GoodName(n.name) && IsDirectory(t, n.parent)
    ensures WellFormed(t[u := n])
  {
    var t' := t[u := n];
    DirectoryIsRooted(t, n.parent);
    RootedStays(t, t', n.parent);
    RootedChild(t', u);
    forall v | v in t'
      ensures NodeFits(t', v)
    {
      if v in t {
        assert NodeFits(t, v);
        RootedStays(t, t', v);
      }
    }
  }

  // ----- removing a leaf -----

  lemma {:induction false} AtAvoids(t: Tree, t': Tree, u: Uid, v: Uid, segs: seq<Segment>)
    requires forall w :: w in t && w != u ==> w in t' && t'[w] == t[w]
    requires At(t, v, segs) && !Within(t, v, u)
    ensures At(t', v, segs)
    decreases |segs|
  {
    if segs != [] {
      WithinSelf(t, u);
      WithinStep(t, v, u);
      AtAvoids(t, t', u, t[v].parent, segs[..|segs| - 1]);
    }
  }

  lemma {:induction false} LeafHasNothingWithin(t: Tree, v: Uid, u: Uid, d: nat)
    requires !HasChild(t, u) && Climbs(t, v, u, d)
    ensures v == u
    decreases d
  {
    if v != u {
      LeafHasNothingWithin(t, t[v].parent, u, d - 1);
    }
  }

  lemma RemoveKeepsWellFormed(t: Tree, u: Uid)
    requires WellFormed(t) && !HasChild(t, u)
    ensures WellFormed(t - {u})
    ensures UniqueNames(t) ==> UniqueNames(t - {u})
  {
    var t' := t - {u};
    forall v | v in t'
      ensures NodeFits(t', v)
    {
      assert NodeFits(t, v);
      var segs :| At(t, v, segs);
      if Within(t, v, u) {
        var d: nat :| Climbs(t, v, u, d);
        LeafHasNothingWithin(t, v, u, d);
      }
      AtAvoids(t, t', u, v, segs);
    }
  }

  // ----- moving and renaming -----

  /** `n` may replace the node `u`: same kind, and the new parent is a directory outside `u`. */
  ghost predicate Replaces(t: Tree, u: Uid, n: Node) {
    u in t && n.kind == t[u].kind && GoodName(n.name) && IsDirectory(t, n.parent) && !Within(t, n.parent, u)
  }

  lemma {:induction false} ReplacedRooted(t: Tree, u: Uid, n: Node, v: Uid, segs: seq<Segment>)
    requires Replaces(t, u, n) && Rooted(t[u := n], u) && At(t, v, segs)
    ensures Rooted(t[u := n], v)
    decreases |segs|
  {
    if segs == [] {
      assert At(t[u := n], v, []);
    } else if v != u {
      ReplacedRooted(t, u, n, t[v].parent, segs[..|segs| - 1]);
      RootedChild(t[u := n], v);
    }
  }

  lemma ReplaceKeepsWellFormed(t: Tree, u: Uid, n: Node)
    requires WellFormed(t) && Replaces(t, u, n)
    ensures WellFormed(t[u := n])
  {
    var t' := t[u := n];
    DirectoryIsRooted(t, n.parent);
    var above :| At(t, n.parent, above);
    AtAvoids(t, t', u, n.parent, above);
    RootedChild(t', u);
    forall v | v in t'
      ensures NodeFits(t', v)
    {
      assert NodeFits(t, v);
      var segs :| At(t, v, segs);
      ReplacedRooted(t, u, n, v, segs);
    }
  }

  lemma ReplaceKeepsUnique(t: Tree, u: Uid, n: Node)
    requires UniqueNames(t) && u in t && !NameTaken(t, n.parent, n.name, u)
    ensures UniqueNames(t[u := n])
  {
  }

  /** Whether a name is taken by another node does not depend on the node itself. */
  lemma NameTakenElsewhere(t: Tree, u: Uid, n: Node, parent: Uid, name: string)
    requires u in t
    ensures NameTaken(t[u := n], parent, name, u) <==> NameTaken(t, parent, name, u)
  {
    var t' := t[u := n];
    if NameTaken(t, parent, name, u) {
      var v :| v in t && v != u && t[v].parent == parent && t[v].name == name;
      assert v in t' && t'[v] == t[v];
    }
  }

  lemma AddKeepsUnique(t: Tree, u: Uid, n: Node)
    requires UniqueNames(t) && u !in t && !NameTaken(t, n.parent, n.name, u)
    ensures UniqueNames(t[u := n])
  {
  }

  lemma {:induction false} ClimbsAfterReplace(t: Tree, u: Uid, n: Node, v: Uid, d: nat)
    requires u in t
    ensures Climbs(t, v, u, d) <==> Climbs(t[u := n], v, u, d)
    decreases d
  {
    if v != u && d > 0 && v in t {
      ClimbsAfterReplace(t, u, n, t[v].parent, d - 1);
    }
  }

  /** Moving or renaming a node carries its whole subtree along. */
  lemma ReplaceKeepsSubtree(t: Tree, u: Uid, n: Node)
    requires u in t
    ensures forall v :: Within(t, v, u) <==> Within(t[u := n], v, u)
    ensures Subtree(t[u := n], u) == Subtree(t, u)
  {
    forall v
      ensures Within(t, v, u) <==> Within(t[u := n], v, u)
    {
      if Within(t, v, u) {
        var d: nat :| Climbs(t, v, u, d);
        ClimbsAfterReplace(t, u, n, v, d);
      }
      if Within(t[u := n], v, u) {
        var d: nat :| Climbs(t[u := n], v, u, d);
        ClimbsAfterReplace(t, u, n, v, d);
      }
    }
  }

  // ----- copying a subtree -----

  /** `clone` is injective, and holds the parent of everything it holds but `src`. */
  predicate ClosedAbove(t: Tree, src: Uid, clone: map<Uid, Uid>) {
    && src in clone
    && (forall v {:trigger clone[v]} :: v in clone ==> v in t && (v == src || t[v].parent in clone))
    && (forall v, w {:trigger clone[v], clone[w]} :: v in clone && w in clone && clone[v] == clone[w] ==> v == w)
  }

  /** `clone` names a fresh copy for every node of the subtree at `src`, and for no other node. */
  predicate CloneFits(t: Tree, used: set<Uid>, src: Uid, clone: map<Uid, Uid>) {
    && ClosedAbove(t, src, clone)
    && (forall v {:trigger clone[v]} :: v in clone ==> clone[v] !in used && clone[v] != ROOT)
    && (forall v {:trigger t[v]} :: v in t && t[v].parent in clone ==> v in clone)
  }

  function CloneNode(t: Tree, src: Uid, dst: Uid, clone: map<Uid, Uid>, v: Uid): Node
    requires v in t && (v == src || t[v].parent in clone)
  {
    Node(t[v].name, if v == src then dst else clone[t[v].parent], t[v].kind)
  }

  function CopyOf(t: Tree, src: Uid, dst: Uid, clone: map<Uid, Uid>): (added: Tree)
    requires ClosedAbove(t, src, clone)
    ensures added.Keys == clone.Values
    ensures forall v {:trigger CloneNode(t, src, dst, clone, v)} :: v in clone ==>
      clone[v] in added && added[clone[v]] == CloneNode(t, src, dst, clone, v)
  {
    map v | v in clone :: clone[v] := CloneNode(t, src, dst, clone, v)
  }

  lemma {:induction false} CloneClimbs(t: Tree, used: set<Uid>, src: Uid, clone: map<Uid, Uid>, v: Uid,
                                       segs: seq<Segment>)
    requires WellFormed(t) && CloneFits(t, used, src, clone) && v in clone && At(t, v, segs)
    ensures Within(t, v, src)
    decreases |segs|
  {
    WithinSelf(t, src);
    if v != src {
      CloneClimbs(t, used, src, clone, t[v].parent, segs[..|segs| - 1]);
      WithinStep(t, v, src);
    }
  }

  lemma {:induction false} CloneCovers(t: Tree, used: set<Uid>, src: Uid, clone: map<Uid, Uid>, v: Uid, d: nat)
    requires CloneFits(t, used, src, clone) && v in t && Climbs(t, v, src, d)
    ensures v in clone
    decreases d
  {
    if v != src {
      if t[v].parent in t {
        CloneCovers(t, used, src, clone, t[v].parent, d - 1);
      }
    }
  }

  /** The copied nodes are exactly the source subtree. */
  lemma CloneIsSubtree(t: Tree, used: set<Uid>, src: Uid, clone: map<Uid, Uid>)
    requires WellFormed(t) && CloneFits(t, used, src, clone)
    ensures clone.Keys == Subtree(t, src)
  {
    forall v | v in clone
      ensures v in Subtree(t, src)
    {
      assert NodeFits(t, v);
      var segs :| At(t, v, segs);
      CloneClimbs(t, used, src, clone, v, segs);
    }
    forall v | v in Subtree(t, src)
      ensures v in clone
    {
      var d: nat :| Climbs(t, v, src, d);
      CloneCovers(t, used, src, clone, v, d);
    }
  }

  lemma {:induction false} CloneRooted(t: Tree, used: set<Uid>, src: Uid, dst: Uid, clone: map<Uid, Uid>, t': Tree,
                                       v: Uid, segs: seq<Segment>)
    requires CloneFits(t, used, src, clone) && t' == t + CopyOf(t, src, dst, clone)
    requires ROOT !in t && Rooted(t', dst) && v in clone && At(t, v, segs)
    ensures Rooted(t', clone[v])
    decreases |segs|
  {
    var u := clone[v];
    assert u in t' && t'[u] == CloneNode(t, src, dst, clone, v);
    if v != src {
      CloneRooted(t, used, src, dst, clone, t', t[v].parent, segs[..|segs| - 1]);
    }
    RootedChild(t', u);
  }

  lemma CopyExtends(t: Tree, used: set<Uid>, src: Uid, dst: Uid, clone: map<Uid, Uid>)
    requires t.Keys <= used && CloneFits(t, used, src, clone)
    ensures Extends(t, t + CopyOf(t, src, dst, clone))
  {
  }

  lemma CloneNodeFits(t: Tree, used: set<Uid>, src: Uid, dst: Uid, clone: map<Uid, Uid>, t': Tree, v: Uid)
    requires WellFormed(t) && t.Keys <= used && CloneFits(t, used, src, clone) && IsDirectory(t, dst)
    requires t' == t + CopyOf(t, src, dst, clone) && Rooted(t', dst) && v in clone
    ensures clone[v] in t' && NodeFits(t', clone[v])
  {
    assert NodeFits(t, v);
    var segs :| At(t, v, segs);
    CloneRooted(t, used, src, dst, clone, t', v, segs);
    assert t'[clone[v]] == CloneNode(t, src, dst, clone, v);
    if v == src {
      CopyExtends(t, used, src, dst, clone);
    } else {
      var p := t[v].parent;
      assert t'[clone[p]] == CloneNode(t, src, dst, clone, p);
    }
  }

  lemma CopyKeepsWellFormed(t: Tree, used: set<Uid>, src: Uid, dst: Uid, clone: map<Uid, Uid>)
    requires WellFormed(t) && t.Keys <= used && CloneFits(t, used, src, clone) && IsDirectory(t, dst)
    ensures WellFormed(t + CopyOf(t, src, dst, clone))
  {
    var added := CopyOf(t, src, dst, clone);
    var t' := t + added;
    CopyExtends(t, used, src, dst, clone);
    DirectoryIsRooted(t, dst);
    RootedStays(t, t', dst);
    forall u | u in t'
      ensures NodeFits(t', u)
    {
      if u in added {
        var v :| v in clone && clone[v] == u;
        CloneNodeFits(t, used, src, dst, clone, t', v);
      } else {
        assert NodeFits(t, u);
        RootedStays(t, t', u);
      }
    }
  }
}
