/** How COPY finds the node it just made: the reply carries no uid, so the children of the
    destination are listed before and after, and the first uid that is new is taken. */
module CopyDiff {
  import opened Options
  import opened Paths
  import opened Tree
  import opened TreeEdits

  /** The order of std::set<std::string>. */
  predicate LexLess(a: string, b: string) {
    b != "" && (a == "" || a[0] < b[0] || (a[0] == b[0] && LexLess(a[1..], b[1..])))
  }

  lemma {:induction false} LexTotal(a: string, b: string)
    ensures a == b || LexLess(a, b) || LexLess(b, a)
  {
    if a != "" && b != "" && a[0] == b[0] {
      LexTotal(a[1..], b[1..]);
      assert a == [a[0]] + a[1..] && b == [b[0]] + b[1..];
    }
  }

  lemma {:induction false} LexTransitive(a: string, b: string, c: string)
    requires LexLess(a, b) && LexLess(b, c)
    ensures LexLess(a, c)
  {
    if a != "" && a[0] == b[0] == c[0] {
      LexTransitive(a[1..], b[1..], c[1..]);
    }
  }

  lemma {:induction false} LexExtended(a: string, more: string)
    requires more != ""
    ensures LexLess(a, a + more) && !LexLess(a + more, a)
  {
    if a == "" {
      assert a + more == more;
    } else {
      assert (a + more)[1..] == a[1..] + more;
      LexExtended(a[1..], more);
    }
  }

  /** At the first difference the smaller character decides. */
  lemma {:induction false} LexAtDifference(front: string, c: char, a: string, d: char, b: string)
    requires c < d
    ensures LexLess(front + [c] + a, front + [d] + b)
  {
    var x, y := front + [c] + a, front + [d] + b;
    if front != "" {
      assert x[1..] == front[1..] + [c] + a && y[1..] == front[1..] + [d] + b;
      LexAtDifference(front[1..], c, a, d, b);
    }
  }

  predicate IsLeast(s: set<Uid>, u: Uid) {
    u in s && forall v :: v in s ==> v == u || LexLess(u, v)
  }

  /** The first element in order of `after` that `before` does not have. */
  predicate IsFirstNew(before: set<Uid>, after: set<Uid>, r: Option<Uid>) {
    match r
    case None => after <= before
    case Some(u) => IsLeast(after - before, u)
  }

  method FirstNew(before: set<Uid>, after: set<Uid>) returns (r: Option<Uid>)
    ensures IsFirstNew(before, after, r)
  {
    var rest := after - before;
    if rest == {} {
      assert forall u :: u in after && u !in before ==> u in after - before;
      return None;
    }
    var best :| best in rest;
    rest := rest - {best};
    while rest != {}
      invariant best in after - before && rest <= after - before
      invariant forall v :: v in after - before && v !in rest ==> v == best || LexLess(best, v)
      decreases rest
    {
      var u :| u in rest;
      rest := rest - {u};
      LexTotal(u, best);
      if LexLess(u, best) {
        forall v | v in after - before && v !in rest
          ensures v == u || LexLess(u, v)
        {
          if v != u && v != best {
            LexTransitive(u, best, v);
          }
        }
        best := u;
      }
    }
    return Some(best);
  }

  /** With a complete first listing, the diff finds exactly the one new child. */
  lemma CompleteListingFindsTheCopy(there: set<Uid>, copy: Uid, r: Option<Uid>)
    requires copy !in there && IsFirstNew(there, there + {copy}, r)
    ensures r == Some(copy)
  {
    assert copy in (there + {copy}) - there;
  }

  /** The diff finds the copy, whatever fresh uid it was given. */
  ghost predicate DiffIsReliable(before: set<Uid>, there: set<Uid>) {
    forall copy, r :: copy !in there && IsFirstNew(before, there + {copy}, r) ==> r == Some(copy)
  }

  lemma {:induction false} LongerThanAll(s: set<string>) returns (n: nat)
    ensures forall v :: v in s ==> |v| < n
  {
    if s == {} {
      n := 0;
    } else {
      var u :| u in s;
      n := LongerThanAll(s - {u});
      if n <= |u| {
        n := |u| + 1;
      }
    }
  }

  lemma {:induction false} LeastExists(s: set<Uid>) returns (u: Uid)
    requires s != {}
    ensures IsLeast(s, u)
  {
    var x :| x in s;
    if s == {x} {
      u := x;
    } else {
      var y := LeastExists(s - {x});
      LexTotal(x, y);
      if LexLess(x, y) {
        u := x;
        forall v | v in s
          ensures v == u || LexLess(u, v)
        {
          if v != x && v != y {
            LexTransitive(x, y, v);
          }
        }
      } else {
        u := y;
      }
    }
  }

  /** A fresh uid that sorts after a given one. */
  lemma FreshAfter(x: string, there: set<Uid>) returns (copy: Uid)
    ensures copy !in there && LexLess(x, copy) && !LexLess(copy, x) && copy != x
  {
    var n := LongerThanAll(there);
    var more := seq(n + 1, i => 'z');
    copy := x + more;
    LexExtended(x, more);
  }

  /** The listing whose result COPY ignores matters exactly when it missed a child: the diff is
      reliable if and only if every child was listed before the copy. */
  lemma DiffNeedsTheFirstListing(before: set<Uid>, there: set<Uid>)
    requires before <= there
    ensures DiffIsReliable(before, there) <==> before == there
  {
    if before != there {
      var x :| x in there && x !in before;
      var copy := FreshAfter(x, there);
      var u := LeastExists((there + {copy}) - before);
      assert IsFirstNew(before, there + {copy}, Some(u));
      assert u != copy by {
        assert x in (there + {copy}) - before;
      }
    }
  }

  /** A first listing that failed leaves an empty snapshot; a child that sorts before the copy
      is then taken for it. */
  lemma FailedListingPicksAnother()
    ensures IsFirstNew({}, {"a", "b"}, Some("a")) && !IsFirstNew({}, {"a", "b"}, Some("b"))
  {
    assert LexLess("a", "b") && !LexLess("b", "a");
  }

  // ----- the copied tree -----

  ghost function ChildSet(t: Tree, dir: Uid): set<Uid> {
    set u | u in t && t[u].parent == dir
  }

  /** `u`, new with this node, is the one child `dir` has more in `t'`. */
  ghost predicate OneMoreChild(t: Tree, t': Tree, dir: Uid, u: Uid, n: Node) {
    && ChildSet(t', dir) == ChildSet(t, dir) + {u}
    && u !in t && u in t' && t'[u] == n && n.parent == dir
  }

  lemma CopyAddsOneChild(t: Tree, used: set<Uid>, src: Uid, dst: Uid, clone: map<Uid, Uid>)
    requires WellFormed(t) && t.Keys <= used && ROOT !in used && CloneFits(t, used, src, clone) && IsDirectory(t, dst)
    ensures OneMoreChild(t, t + CopyOf(t, src, dst, clone), dst, clone[src], Node(t[src].name, dst, t[src].kind))
  {
    var added := CopyOf(t, src, dst, clone);
    var t' := t + added;
    CopyExtends(t, used, src, dst, clone);
    forall u | u in ChildSet(t', dst)
      ensures u in ChildSet(t, dst) + {clone[src]}
    {
      if u in added {
        var v :| v in clone && clone[v] == u;
        assert t'[u] == CloneNode(t, src, dst, clone, v);
      }
    }
    assert t'[clone[src]] == CloneNode(t, src, dst, clone, src);
  }

  /** The tree after a copy: the tree before it, every node unchanged, and the clones, the
      topmost of them possibly under a new name. */
  function Copied(t: Tree, src: Uid, dst: Uid, clone: map<Uid, Uid>, name: string): Tree
    requires ClosedAbove(t, src, clone)
  {
    var t' := t + CopyOf(t, src, dst, clone);
    t'[clone[src] := Node(name, dst, t[src].kind)]
  }

  /** Under a free or unchanged name, only new nodes appeared, and exactly one new child. */
  lemma CopiedAddsOneChild(t: Tree, used: set<Uid>, src: Uid, dst: Uid, clone: map<Uid, Uid>, name: string)
    requires WellFormed(t) && t.Keys <= used && ROOT !in used && CloneFits(t, used, src, clone) && IsDirectory(t, dst)
    requires GoodName(name)
    ensures var t' := Copied(t, src, dst, clone, name);
            && WellFormed(t') && Extends(t, t')
            && t'.Keys == t.Keys + clone.Values
            && OneMoreChild(t, t', dst, clone[src], Node(name, dst, t[src].kind))
  {
    CopyKeepsWellFormed(t, used, src, dst, clone);
    CopyExtends(t, used, src, dst, clone);
    CopyAddsOneChild(t, used, src, dst, clone);
    var full := t + CopyOf(t, src, dst, clone);
    ParentIsOutside(full, clone[src]);
    assert NodeFits(full, clone[src]);
    ReplaceKeepsWellFormed(full, clone[src], Node(name, dst, t[src].kind));
  }

  /** The node a clone ends up as. */
  function FinalNode(t: Tree, src: Uid, dst: Uid, clone: map<Uid, Uid>, name: string, v: Uid): Node
    requires ClosedAbove(t, src, clone) && v in clone
  {
    if v == src then Node(name, dst, t[src].kind) else CloneNode(t, src, dst, clone, v)
  }

  lemma CopiedNode(t: Tree, used: set<Uid>, src: Uid, dst: Uid, clone: map<Uid, Uid>, name: string, u: Uid)
    returns (v: Uid)
    requires CloneFits(t, used, src, clone) && t.Keys <= used && u in Copied(t, src, dst, clone, name) && u !in t
    ensures v in clone && u == clone[v]
    ensures Copied(t, src, dst, clone, name)[u] == FinalNode(t, src, dst, clone, name, v)
  {
    v :| v in clone && clone[v] == u;
  }

  lemma CloneParentIsFresh(t: Tree, used: set<Uid>, src: Uid, dst: Uid, clone: map<Uid, Uid>, name: string, x: Uid)
    requires t.Keys <= used && ROOT !in used && CloneFits(t, used, src, clone) && IsDirectory(t, dst) && x in clone
    ensures x == src <==> FinalNode(t, src, dst, clone, name, x).parent in used + {ROOT}
  {
    assert x != src ==> clone[t[x].parent] !in used && clone[t[x].parent] != ROOT;
  }

  lemma TwinClones(t: Tree, used: set<Uid>, src: Uid, dst: Uid, clone: map<Uid, Uid>, name: string, x: Uid, y: Uid)
    requires t.Keys <= used && ROOT !in used && CloneFits(t, used, src, clone) && IsDirectory(t, dst) && UniqueNames(t)
    requires x in clone && y in clone
    requires var a, b := FinalNode(t, src, dst, clone, name, x), FinalNode(t, src, dst, clone, name, y);
             a.parent == b.parent && a.name == b.name
    ensures x == y
  {
    CloneParentIsFresh(t, used, src, dst, clone, name, x);
    CloneParentIsFresh(t, used, src, dst, clone, name, y);
    if x != src {
      assert t[x].parent == t[y].parent;
    }
  }

  lemma NoTwinOfClone(t: Tree, used: set<Uid>, src: Uid, dst: Uid, clone: map<Uid, Uid>, name: string, x: Uid, v: Uid)
    requires WellFormed(t) && t.Keys <= used && ROOT !in used && CloneFits(t, used, src, clone)
    requires x in clone && v in t && !NameTaken(t, dst, name, ROOT)
    ensures var a := FinalNode(t, src, dst, clone, name, x); a.parent != t[v].parent || a.name != t[v].name
  {
    assert NodeFits(t, v);
    if x != src {
      assert clone[t[x].parent] !in used && clone[t[x].parent] != ROOT;
    }
  }

  /** A copy leaves no twin names exactly when its own name was free beside it. */
  lemma CopiedIsUniqueExactly(t: Tree, used: set<Uid>, src: Uid, dst: Uid, clone: map<Uid, Uid>, name: string)
    requires WellFormed(t) && t.Keys <= used && ROOT !in used && CloneFits(t, used, src, clone) && IsDirectory(t, dst)
    requires UniqueNames(t)
    ensures UniqueNames(Copied(t, src, dst, clone, name)) <==> !NameTaken(t, dst, name, ROOT)
  {
    var t' := Copied(t, src, dst, clone, name);
    CopyExtends(t, used, src, dst, clone);
    if NameTaken(t, dst, name, ROOT) {
      var v :| v in t && v != ROOT && t[v].parent == dst && t[v].name == name;
      assert v in t' && clone[src] in t' && t'[v] == t[v];
    } else {
      forall u, v | u in t' && v in t' && t'[u].parent == t'[v].parent && t'[u].name == t'[v].name
        ensures u == v
      {
        if u !in t {
          var x := CopiedNode(t, used, src, dst, clone, name, u);
          if v !in t {
            var y := CopiedNode(t, used, src, dst, clone, name, v);
            TwinClones(t, used, src, dst, clone, name, x, y);
          } else {
            NoTwinOfClone(t, used, src, dst, clone, name, x, v);
          }
        } else if v !in t {
          var y := CopiedNode(t, used, src, dst, clone, name, v);
          NoTwinOfClone(t, used, src, dst, clone, name, y, u);
        }
      }
    }
  }
}
