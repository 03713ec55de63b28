/** What MOVE and COPY do first: clearing what stands at the destination. */
module Transfers {
  import opened Options
  import opened Statuses
  import opened Paths
  import opened Tree
  import opened TreeEdits
  import opened TreeRemoval
  import opened CacheSafety

  predicate ForbidsOverwrite(overwrite: string) {
    overwrite != "" && (overwrite[0] == 'F' || overwrite[0] == 'f')
  }

  /** What clearing the destination may have removed: nothing, or (part of) what was there. */
  ghost predicate Cleared(t: Tree, t': Tree, top: Uid, gone: seq<Uid>, overwrite: string) {
    && Removal(t, t', top, gone)
    && (ForbidsOverwrite(overwrite) ==> gone == [])
  }

  /** The tree once whatever is at `dest` is removed. */
  ghost function ClearedTree(t: Tree, dest: seq<Segment>): Tree {
    match UncachedWalk(t, dest)
    case None => t
    case Some(top) => if top == ROOT then t else t - Subtree(t, top)
  }

  /** Clearing the destination spares a node exactly when the destination is not on the way to it. */
  lemma ClearingSparesSource(t: Tree, u: Uid, from: seq<Segment>, to: seq<Segment>)
    requires WellFormed(t) && UniqueNames(t) && u in t && At(t, u, from) && to != []
    ensures u in ClearedTree(t, to) <==> !(to <= from)
    ensures to <= from ==> UncachedWalk(ClearedTree(t, to), from).None?
  {
    var cleared, found := ClearedTree(t, to), UncachedWalk(t, to);
    if found.Some? {
      WalkFindsThePath(t, found.value, to);
    }
    if to <= from {
      var x := AncestorAt(t, u, from, |to|);
      assert from[..|to|] == to;
      WalkFindsThePath(t, x, to);
      var left := UncachedWalk(cleared, from);
      if left.Some? {
        WalkFindsThePath(cleared, left.value, from);
        AtStays(cleared, t, left.value, from);
        AtIsInjective(t, u, left.value, from);
      }
    } else if found.Some? && Within(t, u, found.value) {
      WithinIsBelow(t, u, found.value, from, to);
    }
  }

  /** What becomes of the source of a MOVE or a COPY: it survives exactly when the destination is
      not on the way to it, and otherwise the request, having deleted it, answers 404. */
  ghost predicate SourceFate(t: Tree, t': Tree, from: seq<Segment>, to: seq<Segment>, status: int) {
    match UncachedWalk(t, from)
    case None => true
    case Some(u) => u != ROOT ==> (u in t' <==> !(to <= from)) && (to <= from ==> status == NOT_FOUND)
  }

  lemma FateOfSource(t: Tree, t': Tree, from: seq<Segment>, to: seq<Segment>, status: int)
    requires WellFormed(t) && UniqueNames(t) && to != []
    requires forall u :: u in t ==> (u in t' <==> u in ClearedTree(t, to))
    requires UncachedWalk(ClearedTree(t, to), from).None? ==> status == NOT_FOUND
    ensures SourceFate(t, t', from, to, status)
  {
    var found := UncachedWalk(t, from);
    if found.Some? && found.value != ROOT {
      WalkFindsThePath(t, found.value, from);
      ClearingSparesSource(t, found.value, from, to);
    }
  }
}
