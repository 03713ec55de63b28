/** The file tree behind the remote core, as a value: every node knows its name and
    its parent, the root is not a node, and a path is found by climbing. */
module Tree {
  import opened Paths

  type Uid = string
  const ROOT: Uid := ""

  datatype Kind = File | Directory
  datatype Node = Node(name: string, parent: Uid, kind: Kind)
  type Tree = map<Uid, Node>

  predicate IsDirectory(t: Tree, u: Uid) {
    u == ROOT || (u in t && t[u].kind.Directory?)
  }

  /** `u` is a node at the path spelled by `segs`. */
  ghost predicate At(t: Tree, u: Uid, segs: seq<Segment>)
    decreases |segs|
  {
    if segs == [] then u == ROOT
    else u in t && t[u].name == segs[|segs| - 1] && At(t, t[u].parent, segs[..|segs| - 1])
  }

  ghost predicate Rooted(t: Tree, u: Uid) {
    exists segs :: At(t, u, segs)
  }

  ghost predicate NodeFits(t: Tree, u: Uid)
    requires u in t
  {
    GoodName(t[u].name) && IsDirectory(t, t[u].parent) && Rooted(t, u)
  }

  /** Names are usable, parents are directories, and every node has all its ancestors. */
  ghost predicate WellFormed(t: Tree) {
    ROOT !in t && forall u {:trigger NodeFits(t, u)} :: u in t ==> NodeFits(t, u)
  }

  ghost predicate UniqueNames(t: Tree) {
    forall u, v :: u in t && v in t && t[u].parent == t[v].parent && t[u].name == t[v].name ==> u == v
  }

  /** Nodes present in both trees are the same node. */
  ghost predicate Agree(t: Tree, t': Tree) {
    forall u :: u in t && u in t' ==> t[u] == t'[u]
  }

  // ----- climbing -----

  lemma {:induction false} AtIsUnique(t: Tree, u: Uid, a: seq<Segment>, b: seq<Segment>)
    requires WellFormed(t) && At(t, u, a) && At(t, u, b)
    ensures a == b
    decreases |a|
  {
    if a != [] {
      AtIsUnique(t, t[u].parent, a[..|a| - 1], b[..|b| - 1]);
      assert a == a[..|a| - 1] + [a[|a| - 1]] && b == b[..|b| - 1] + [b[|b| - 1]];
    }
  }

  lemma {:induction false} AtIsInjective(t: Tree, u: Uid, v: Uid, segs: seq<Segment>)
    requires UniqueNames(t) && At(t, u, segs) && At(t, v, segs)
    ensures u == v
    decreases |segs|
  {
    if segs != [] {
      AtIsInjective(t, t[u].parent, t[v].parent, segs[..|segs| - 1]);
    }
  }

  lemma DirectoryIsRooted(t: Tree, u: Uid)
    requires WellFormed(t) && (u == ROOT || u in t)
    ensures Rooted(t, u)
  {
    if u == ROOT {
      assert At(t, ROOT, []);
    } else {
      assert NodeFits(t, u);
    }
  }

  /** A child of a node at `segs` is at `segs` and its own name. */
  lemma AtChild(t: Tree, u: Uid, segs: seq<Segment>)
    requires u in t && At(t, t[u].parent, segs)
    ensures At(t, u, segs + [t[u].name])
  {
    assert (segs + [t[u].name])[..|segs|] == segs;
  }

  /** A surviving node is still at its path, whatever else came or went. */
  lemma {:induction false} AtSurvives(t: Tree, t': Tree, u: Uid, segs: seq<Segment>)
    requires ROOT !in t && WellFormed(t') && Agree(t, t')
    requires At(t, u, segs) && (u == ROOT || u in t')
    ensures At(t', u, segs)
    decreases |segs|
  {
    if segs != [] {
      assert NodeFits(t', u);
      AtSurvives(t, t', t[u].parent, segs[..|segs| - 1]);
    }
  }

  // ----- subtrees -----

  /** Climbing at most `d` steps from `v` meets `r`. */
  ghost predicate Climbs(t: Tree, v: Uid, r: Uid, d: nat)
    decreases d
  {
    v == r || (d > 0 && v in t && Climbs(t, t[v].parent, r, d - 1))
  }

  ghost predicate Within(t: Tree, v: Uid, r: Uid) {
    exists d: nat :: Climbs(t, v, r, d)
  }

  ghost function Subtree(t: Tree, r: Uid): set<Uid> {
    set v | v in t && Within(t, v, r)
  }

  lemma WithinSelf(t: Tree, r: Uid)
    ensures Within(t, r, r)
  {
    assert Climbs(t, r, r, 0);
  }

  lemma WithinStep(t: Tree, v: Uid, r: Uid)
    requires v in t && v != r
    ensures Within(t, v, r) <==> Within(t, t[v].parent, r)
  {
    if Within(t, v, r) {
      var d: nat :| Climbs(t, v, r, d);
      assert Climbs(t, t[v].parent, r, d - 1);
    }
    if Within(t, t[v].parent, r) {
      var d: nat :| Climbs(t, t[v].parent, r, d);
      assert Climbs(t, v, r, d + 1);
    }
  }

  lemma ChildWithin(t: Tree, v: Uid)
    requires v in t
    ensures Within(t, v, t[v].parent)
  {
    WithinSelf(t, t[v].parent);
    if v != t[v].parent {
      WithinStep(t, v, t[v].parent);
    }
  }

  lemma {:induction false} ClimbsOn(t: Tree, v: Uid, w: Uid, r: Uid, d: nat)
    requires Climbs(t, v, w, d) && Within(t, w, r)
    ensures Within(t, v, r)
    decreases d
  {
    WithinSelf(t, r);
    if v != w && v != r {
      ClimbsOn(t, t[v].parent, w, r, d - 1);
      WithinStep(t, v, r);
    }
  }

  lemma WithinIsTransitive(t: Tree, v: Uid, w: Uid, r: Uid)
    requires Within(t, v, w) && Within(t, w, r)
    ensures Within(t, v, r)
  {
    var d: nat :| Climbs(t, v, w, d);
    ClimbsOn(t, v, w, r, d);
  }

  lemma {:induction false} ClimbsShortens(t: Tree, v: Uid, r: Uid, d: nat, sv: seq<Segment>, sr: seq<Segment>)
    requires WellFormed(t) && Climbs(t, v, r, d) && At(t, v, sv) && At(t, r, sr)
    ensures sr <= sv && (|sr| == |sv| ==> v == r)
    decreases d
  {
    if v == r {
      AtIsUnique(t, v, sv, sr);
    } else {
      assert sv != [];
      ClimbsShortens(t, t[v].parent, r, d - 1, sv[..|sv| - 1], sr);
    }
  }

  /** A subtree sits at and below the path of its top. */
  lemma WithinIsBelow(t: Tree, v: Uid, r: Uid, sv: seq<Segment>, sr: seq<Segment>)
    requires WellFormed(t) && Within(t, v, r) && At(t, v, sv) && At(t, r, sr)
    ensures sr <= sv && (|sr| == |sv| ==> v == r)
  {
    var d: nat :| Climbs(t, v, r, d);
    ClimbsShortens(t, v, r, d, sv, sr);
  }

  /** The ancestor of `u` at the first `k` segments of its path. */
  lemma {:induction false} AncestorAt(t: Tree, u: Uid, segs: seq<Segment>, k: nat) returns (w: Uid)
    requires ROOT !in t && At(t, u, segs) && k <= |segs|
    ensures At(t, w, segs[..k]) && Within(t, u, w)
    decreases |segs|
  {
    if k == |segs| {
      w := u;
      assert segs[..k] == segs;
      WithinSelf(t, u);
    } else {
      w := AncestorAt(t, t[u].parent, segs[..|segs| - 1], k);
      assert segs[..|segs| - 1][..k] == segs[..k];
      WithinSelf(t, w);
      if u != w {
        WithinStep(t, u, w);
      }
    }
  }

  /** The parent of a node is never inside that node's subtree. */
  lemma ParentIsOutside(t: Tree, u: Uid)
    requires WellFormed(t) && u in t
    ensures !Within(t, t[u].parent, u)
  {
    assert NodeFits(t, u);
    var segs :| At(t, u, segs);
    if Within(t, t[u].parent, u) {
      WithinIsBelow(t, t[u].parent, u, segs[..|segs| - 1], segs);
    }
  }

  /** Two different children of one directory have disjoint subtrees. */
  lemma SiblingsAreOutside(t: Tree, u: Uid, v: Uid)
    requires WellFormed(t) && u in t && v in t && u != v && t[u].parent == t[v].parent
    ensures !Within(t, u, v)
  {
    ParentIsOutside(t, v);
    WithinStep(t, u, v);
  }

  lemma {:induction false} ClimbsToSurvivor(t: Tree, t': Tree, v: Uid, r: Uid, d: nat)
    requires ROOT !in t && WellFormed(t') && Agree(t, t') && Climbs(t, v, r, d)
    requires v in t' && v in t && r in t
    ensures r in t' && Within(t', v, r)
    decreases d
  {
    WithinSelf(t', r);
    if v != r && t[v].parent != ROOT {
      assert NodeFits(t', v);
      ClimbsToSurvivor(t, t', t[v].parent, r, d - 1);
      WithinStep(t', v, r);
    }
  }

  /** A node that survives keeps its ancestors. */
  lemma AncestorsSurvive(t: Tree, t': Tree, v: Uid, r: Uid)
    requires WellFormed(t') && Agree(t, t') && Within(t, v, r)
    requires v in t' && v in t && r in t && ROOT !in t
    ensures r in t' && Within(t', v, r)
  {
    var d: nat :| Climbs(t, v, r, d);
    ClimbsToSurvivor(t, t', v, r, d);
  }

  /** Removing nodes only shrinks subtrees. */
  lemma {:induction false} ClimbsInLarger(t: Tree, t': Tree, v: Uid, r: Uid, d: nat)
    requires t'.Keys <= t.Keys && Agree(t, t') && Climbs(t', v, r, d)
    ensures Climbs(t, v, r, d)
    decreases d
  {
    if v != r {
      ClimbsInLarger(t, t', t'[v].parent, r, d - 1);
    }
  }

  lemma WithinInLarger(t: Tree, t': Tree, v: Uid, r: Uid)
    requires t'.Keys <= t.Keys && Agree(t, t') && Within(t', v, r)
    ensures Within(t, v, r)
  {
    var d: nat :| Climbs(t', v, r, d);
    ClimbsInLarger(t, t', v, r, d);
  }
}
