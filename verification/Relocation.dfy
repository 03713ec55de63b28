/** What moving a node means for the paths that lead to it, to its subtree and to everything else. */
module Relocation {
  import opened Options
  import opened Paths
  import opened Tree
  import opened TreeEdits
  import opened TreeRemoval
  import opened PathCache
  import opened CacheSafety

  /** Two subtrees that share a node are nested. */
  lemma {:induction false} ClimbsMeet(t: Tree, v: Uid, a: Uid, b: Uid, d: nat)
    requires Climbs(t, v, a, d) && Within(t, v, b)
    ensures Within(t, a, b) || Within(t, b, a)
    decreases d
  {
    if v == b {
    } else if v != a {
      WithinStep(t, v, b);
      ClimbsMeet(t, t[v].parent, a, b, d - 1);
    }
  }

  lemma SubtreesAreNested(t: Tree, v: Uid, a: Uid, b: Uid)
    requires Within(t, v, a) && Within(t, v, b)
    ensures Within(t, a, b) || Within(t, b, a)
  {
    var d: nat :| Climbs(t, v, a, d);
    ClimbsMeet(t, v, a, b, d);
  }

  /** Where the moved node ends up. */
  lemma MovedIsAt(t: Tree, u: Uid, n: Node, above: seq<Segment>)
    requires Replaces(t, u, n) && At(t, n.parent, above)
    ensures At(t[u := n], u, above + [n.name])
  {
    AtAvoids(t, t[u := n], u, n.parent, above);
    AtChild(t[u := n], u, above);
  }

  /** Nothing is left at the old path once the node is elsewhere. */
  lemma OldPathIsEmpty(t: Tree, u: Uid, n: Node, from: seq<Segment>, to: seq<Segment>, v: Uid)
    requires WellFormed(t) && UniqueNames(t) && Replaces(t, u, n)
    requires WellFormed(t[u := n]) && UniqueNames(t[u := n])
    requires At(t, u, from) && At(t[u := n], u, to) && from != to
    ensures !At(t[u := n], v, from)
  {
    var t' := t[u := n];
    if At(t', v, from) {
      if Within(t', v, u) {
        WithinIsBelow(t', v, u, from, to);
        var w := AncestorAt(t, u, from, |to|);
        assert from[..|to|] == to;
        if Within(t, w, u) {
          WithinIsBelow(t, w, u, to, from);
        } else {
          AtAvoids(t, t', u, w, to);
          AtIsInjective(t', u, w, to);
          WithinSelf(t, u);
        }
      } else {
        AtAvoids(t', t, u, v, from);
        AtIsInjective(t, u, v, from);
        WithinSelf(t', u);
      }
    }
  }

  lemma WalksAfterMove(t: Tree, u: Uid, n: Node, from: seq<Segment>, to: seq<Segment>)
    requires WellFormed(t) && UniqueNames(t) && Replaces(t, u, n) && !NameTaken(t, n.parent, n.name, u)
    requires At(t, u, from) && At(t[u := n], u, to)
    ensures UniqueNames(t[u := n])
    ensures UncachedWalk(t[u := n], to) == Some(u)
    ensures from != to ==> UncachedWalk(t[u := n], from) == None
  {
    var t' := t[u := n];
    ReplaceKeepsWellFormed(t, u, n);
    ReplaceKeepsUnique(t, u, n);
    WalkFindsThePath(t', u, to);
    var found := UncachedWalk(t', from);
    if found.Some? && from != to {
      WalkFindsThePath(t', found.value, from);
      OldPathIsEmpty(t, u, n, from, to, found.value);
    }
  }

  /** The destination's parent is outside the source, so the overwritten target is too. */
  lemma TargetIsOutsideSource(t: Tree, mid: Tree, top: Uid, u: Uid, parent: Uid, to: seq<Segment>, above: seq<Segment>)
    requires WellFormed(t) && UniqueNames(t) && WellFormed(mid) && mid.Keys <= t.Keys && Agree(t, mid)
    requires At(t, top, to) && to != [] && above == to[..|to| - 1]
    requires u in mid && At(mid, parent, above) && !Within(mid, parent, u) && top != u
    ensures !Within(t, top, u)
  {
    if Within(t, top, u) {
      WithinStep(t, top, u);
      AtStays(mid, t, parent, above);
      AtIsInjective(t, t[top].parent, parent, above);
      AncestorsSurvive(t, mid, parent, u);
    }
  }

  /** Deleting what was at the destination takes nothing from the subtree that is moved there. */
  lemma OverwriteSparesSource(t: Tree, mid: Tree, top: Uid, gone: seq<Uid>, u: Uid, parent: Uid,
                              to: seq<Segment>, above: seq<Segment>)
    requires WellFormed(t) && UniqueNames(t) && WellFormed(mid) && Removal(t, mid, top, gone)
    requires gone != [] ==> Members(gone) == Subtree(t, top) && At(t, top, to)
    requires to != [] && above == to[..|to| - 1]
    requires u in mid && At(mid, parent, above) && !Within(mid, parent, u)
    ensures Subtree(mid, u) == Subtree(t, u)
  {
    forall v
      ensures v in Subtree(t, u) <==> v in Subtree(mid, u)
    {
      if v in mid {
        if Within(t, v, u) {
          AncestorsSurvive(t, mid, v, u);
        }
        if Within(mid, v, u) {
          WithinInLarger(t, mid, v, u);
        }
      } else if v in t && Within(t, v, u) {
        assert v in gone;
        SubtreesAreNested(t, v, top, u);
        if !Within(t, u, top) {
          TargetIsOutsideSource(t, mid, top, u, parent, to, above);
        }
      }
    }
  }
}
