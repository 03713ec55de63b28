/** Request paths: their segments, their canonical form, and the two ways the
    handlers cut a path into a parent and a name. */
module Paths {
  import opened Strings

  type Segment = string

  predicate GoodName(s: string) {
    IsPiece(s, '/')
  }

  predicate GoodSegments(segs: seq<Segment>) {
    forall i :: 0 <= i < |segs| ==> GoodName(segs[i])
  }

  /** The non-empty pieces of a path between its slashes. */
  function Segments(p: string): (segs: seq<Segment>)
    ensures GoodSegments(segs)
  {
    Pieces(p, '/')
  }

  /** "/a/b" for ["a", "b"], and "" for no segment at all. */
  function Joined(segs: seq<Segment>): string {
    if segs == [] then "" else Joined(segs[..|segs| - 1]) + "/" + segs[|segs| - 1]
  }

  /** The canonical spelling of a list of segments. */
  function PathOf(segs: seq<Segment>): string {
    if segs == [] then "/" else Joined(segs)
  }

  lemma SegmentsAtSlash(a: string, b: string)
    ensures Segments(a + "/" + b) == Segments(a) + Segments(b)
  {
    PiecesAtSeparator(a, b, '/');
  }

  lemma TrailingSlashAddsNothing(a: string)
    ensures Segments(a + "/") == Segments(a)
  {
    PiecesTrailing(a, '/');
  }

  lemma SegmentsOfName(s: string)
    requires GoodName(s)
    ensures Segments(s) == [s]
  {
    PiecesOfOne(s, '/');
  }

  lemma {:induction false} JoinedAppend(segs: seq<Segment>, name: Segment)
    ensures Joined(segs + [name]) == Joined(segs) + "/" + name
  {
    assert (segs + [name])[..|segs|] == segs;
  }

  lemma {:induction false} SegmentsOfChild(dir: string, name: string)
    requires GoodName(name)
    ensures Segments(dir + "/" + name) == Segments(dir) + [name]
  {
    SegmentsAtSlash(dir, name);
    SegmentsOfName(name);
  }

  lemma {:induction false} SegmentsOfJoined(segs: seq<Segment>)
    requires GoodSegments(segs)
    ensures Segments(Joined(segs)) == segs
  {
    if segs != [] {
      var init, name := segs[..|segs| - 1], segs[|segs| - 1];
      SegmentsOfJoined(init);
      SegmentsOfChild(Joined(init), name);
    }
  }

  lemma {:induction false} RootHasNoSegments()
    ensures Segments("") == [] && Segments("/") == []
  {
    assert "/"[1..] == "";
  }

  /** Reading back a canonical path gives the segments it was built from. */
  lemma {:induction false} SegmentsOfPath(segs: seq<Segment>)
    requires GoodSegments(segs)
    ensures Segments(PathOf(segs)) == segs
  {
    RootHasNoSegments();
    SegmentsOfJoined(segs);
  }

  lemma SegmentsGrowLast(a: string, c: char)
    requires a != "" && a[|a| - 1] != '/' && c != '/'
    ensures Segments(a) != []
    ensures var segs := Segments(a); var last := |segs| - 1;
            Segments(a + [c]) == segs[..last] + [segs[last] + [c]]
  {
    PiecesGrowLast(a, '/', c);
  }

  lemma {:induction false} JoinedGrowLast(segs: seq<Segment>, c: char)
    requires segs != []
    ensures var last := |segs| - 1;
            Joined(segs[..last] + [segs[last] + [c]]) == Joined(segs) + [c]
  {
    var init, name := segs[..|segs| - 1], segs[|segs| - 1];
    JoinedAppend(init, name + [c]);
    assert Joined(init) + "/" + (name + [c]) == Joined(init) + "/" + name + [c];
  }

  lemma {:induction false} SegmentsStartName(a: string, c: char)
    requires c != '/' && (a == "" || a[|a| - 1] == '/')
    ensures Segments(a + [c]) == Segments(a) + [[c]]
  {
    SegmentsOfName([c]);
    if a == "" {
      assert a + [c] == [c];
    } else {
      var init := a[..|a| - 1];
      assert a == init + "/" && a + [c] == init + "/" + [c];
      TrailingSlashAddsNothing(init);
      SegmentsAtSlash(init, [c]);
    }
  }

  lemma {:induction false} JoinedEndsInName(segs: seq<Segment>)
    requires GoodSegments(segs)
    ensures var s := Joined(segs);
            if segs == [] then s == "" else |s| > 1 && s[0] == '/' && s[|s| - 1] != '/'
  {
    if segs != [] {
      JoinedEndsInName(segs[..|segs| - 1]);
    }
  }

  predicate AfterSlash(done: string) {
    done == "" || done[|done| - 1] == '/'
  }

  /** What has been written once `done` has been read. */
  function Emitted(done: string): string {
    Joined(Segments(done)) + (if AfterSlash(done) then "/" else "")
  }

  lemma {:induction false} EmitOne(done: string, c: char)
    ensures Emitted(done + [c]) == if c == '/' && AfterSlash(done) then Emitted(done) else Emitted(done) + [c]
  {
    if c == '/' {
      TrailingSlashAddsNothing(done);
    } else if AfterSlash(done) {
      SegmentsStartName(done, c);
      JoinedAppend(Segments(done), [c]);
    } else {
      SegmentsGrowLast(done, c);
      JoinedGrowLast(Segments(done), c);
    }
  }

  lemma {:induction false} EmittedAll(path: string)
    ensures var out := Emitted(path);
            |out| > 0 &&
            PathOf(Segments(path)) ==
              if |out| > 1 && out[|out| - 1] == '/' then out[..|out| - 1] else out
  {
    JoinedEndsInName(Segments(path));
    if !AfterSlash(path) {
      SegmentsGrowLast(path, 'x');
    }
  }

  /** Canonicalises a path in one pass, with a flag for "the last thing written was
      a slash", as the resolver does on every call. */
  method NormalizePath(path: string) returns (out: string)
    ensures out == PathOf(Segments(path))
  {
    out := "/";
    var prevSlash := true;
    ghost var done := "";
    for i := 0 to |path|
      invariant out == Emitted(done) && prevSlash == AfterSlash(done)
      invariant done == path[..i]
    {
      var c := path[i];
      EmitOne(done, c);
      assert path[..i + 1] == done + [c];
      done := path[..i + 1];
      if c == '/' {
        if prevSlash {
          continue;
        }
        prevSlash := true;
      } else {
        prevSlash := false;
      }
      out := out + [c];
    }
    assert done == path;
    EmittedAll(path);
    if |out| > 1 && out[|out| - 1] == '/' {
      out := out[..|out| - 1];
    }
  }

  predicate NoDoubledSlash(s: string) {
    forall i :: 0 < i < |s| ==> s[i - 1] != '/' || s[i] != '/'
  }

  lemma {:induction false} JoinedHasNoDoubledSlash(segs: seq<Segment>)
    requires GoodSegments(segs)
    ensures NoDoubledSlash(Joined(segs))
  {
    if segs != [] {
      JoinedEndsInName(segs[..|segs| - 1]);
      JoinedHasNoDoubledSlash(segs[..|segs| - 1]);
    }
  }

  /** The shape of a canonical path, and that canonicalising twice changes nothing. */
  lemma {:induction false} NormalFormShape(path: string)
    ensures var n := PathOf(Segments(path));
            && |n| > 0 && n[0] == '/'
            && NoDoubledSlash(n)
            && (n != "/" ==> n[|n| - 1] != '/')
            && PathOf(Segments(n)) == n
  {
    JoinedEndsInName(Segments(path));
    JoinedHasNoDoubledSlash(Segments(path));
    SegmentsOfPath(Segments(path));
  }

  /** Two spellings have the same canonical form exactly when they name the same segments. */
  lemma {:induction false} NormalFormIsCanonical(p: string, q: string)
    ensures PathOf(Segments(p)) == PathOf(Segments(q)) <==> Segments(p) == Segments(q)
  {
    SegmentsOfPath(Segments(p));
    SegmentsOfPath(Segments(q));
  }

  /** Drops one trailing slash, keeping the root. */
  function StripSlash(p: string): string {
    if |p| > 1 && p[|p| - 1] == '/' then p[..|p| - 1] else p
  }

  /** Everything up to the last slash, or the root when nothing is left. */
  function ParentOf(p: string): string {
    var pos := LastIndexOf(p, '/');
    if pos <= 0 then "/" else p[..pos]
  }

  /** Everything after the last slash. */
  function NameOf(p: string): (name: string)
    ensures '/' !in name
  {
    p[LastIndexOf(p, '/') + 1..]
  }

  /** A trailing slash goes, one of them, and nothing else does. */
  lemma StripSlashExactly(p: string)
    ensures p != "" ==> StripSlash(p + "/") == p
    ensures p == "/" || !EndsWith(p, "/") ==> StripSlash(p) == p
  {
    if p != "" {
      assert (p + "/")[..|p|] == p;
    }
    if |p| > 1 && p[|p| - 1] == '/' {
      assert p[|p| - 1..] == "/";
    }
  }

  /** Where a path is split: at its last slash, the root standing in for an empty front. */
  lemma SplitExactly(front: string, name: string)
    requires '/' !in name
    ensures NameOf(front + "/" + name) == name
    ensures ParentOf(front + "/" + name) == if front == "" then "/" else front
    ensures NameOf(name) == name && ParentOf(name) == "/"
  {
    var p := front + "/" + name;
    assert p[|front|] == '/' && forall k :: |front| < k < |p| ==> p[k] == name[k - |front| - 1];
    assert LastIndexOf(p, '/') == |front|;
    assert p[|front| + 1..] == name && p[..|front|] == front;
    assert LastIndexOf(name, '/') == -1 && name[0..] == name;
  }

  lemma {:induction false} StripSlashKeepsSegments(p: string)
    ensures Segments(StripSlash(p)) == Segments(p)
  {
    if |p| > 1 && p[|p| - 1] == '/' {
      assert p == StripSlash(p) + "/";
      TrailingSlashAddsNothing(StripSlash(p));
    }
  }

  lemma {:induction false} ParentSegments(p: string)
    requires LastIndexOf(p, '/') >= 0
    ensures Segments(ParentOf(p)) == Segments(p[..LastIndexOf(p, '/')])
  {
    RootHasNoSegments();
    if LastIndexOf(p, '/') == 0 {
      assert p[..0] == "";
    }
  }

  lemma {:induction false} SplitAtLastSlash(p: string)
    requires NameOf(p) != "" && LastIndexOf(p, '/') >= 0
    ensures Segments(p[..LastIndexOf(p, '/')]) + [NameOf(p)] == Segments(p)
  {
    var pos := LastIndexOf(p, '/');
    assert p == p[..pos] + "/" + NameOf(p);
    SegmentsOfChild(p[..pos], NameOf(p));
  }

  lemma {:induction false} SplitWithoutSlash(p: string)
    requires NameOf(p) != "" && LastIndexOf(p, '/') < 0
    ensures Segments(ParentOf(p)) + [NameOf(p)] == Segments(p)
  {
    assert p == NameOf(p);
    SegmentsOfName(p);
    RootHasNoSegments();
  }

  /** Splitting a path whose last name is not empty splits its list of segments. */
  lemma {:induction false} SplitPathSplitsSegments(p: string)
    requires NameOf(p) != ""
    ensures Segments(ParentOf(p)) + [NameOf(p)] == Segments(p)
  {
    if LastIndexOf(p, '/') < 0 {
      SplitWithoutSlash(p);
    } else {
      SplitAtLastSlash(p);
      ParentSegments(p);
    }
  }

  /** When nothing follows the last slash, the parent is the same place spelled without it. */
  lemma {:induction false} EmptyNameIsTheParent(p: string)
    requires NameOf(p) == ""
    ensures Segments(ParentOf(p)) == Segments(p)
  {
    RootHasNoSegments();
    var pos := LastIndexOf(p, '/');
    if pos >= 0 {
      assert p == p[..pos] + "/";
      TrailingSlashAddsNothing(p[..pos]);
      ParentSegments(p);
    } else {
      assert p == "";
    }
  }

  /** Whether a MOVE lands where it was asked to. It does unless the source ends in two slashes,
      so that its last name reads as empty, and its parent is spelled like the destination's:
      then the parent itself is renamed in place. */
  predicate StaysOnTrack(source: string, dest: string) {
    NameOf(StripSlash(source)) != "" || ParentOf(StripSlash(source)) != ParentOf(StripSlash(dest))
  }

  /** The path of a listed child, as PROPFIND spells it. */
  function ChildPath(dir: string, name: string): string {
    if dir == "" || dir == "/" then "/" + name else dir + "/" + name
  }

  lemma {:induction false} ChildPathAppendsSegment(dir: string, name: string)
    requires GoodName(name)
    ensures Segments(ChildPath(dir, name)) == Segments(dir) + [name]
  {
    RootHasNoSegments();
    SegmentsOfChild(if dir == "/" then "" else dir, name);
  }

  /** What the href of a child called `name` looks like in the answer to a request for `path`. */
  predicate IsChildHref(path: string, name: string, href: string) {
    var dir := StripSlash(path);
    && dir <= href && EndsWith(href, "/" + name) && |href| <= |dir| + 1 + |name|
    && (dir == PathOf(Segments(path)) ==> href == PathOf(Segments(path) + [name]))
    && (NoDoubledSlash(path) ==> NoDoubledSlash(href))
  }

  lemma ChildHasNoDoubledSlash(path: string, name: string)
    requires GoodName(name) && NoDoubledSlash(path)
    ensures NoDoubledSlash(ChildPath(StripSlash(path), name))
  {
    var dir := StripSlash(path);
    var href := ChildPath(dir, name);
    assert dir == "" || dir == "/" || dir[|dir| - 1] != '/' by {
      if |path| > 1 && path[|path| - 1] == '/' {
        assert path[|path| - 2] != '/';
      }
    }
    var n := if dir == "/" then 0 else |dir|;
    assert href[n] == '/' && forall i :: n < i < |href| ==> href[i] == name[i - n - 1] && href[i] != '/';
    assert forall i :: 0 <= i < n ==> href[i] == path[i];
  }

  lemma ChildPathSpelling(dir: string, name: string)
    ensures dir <= ChildPath(dir, name) && EndsWith(ChildPath(dir, name), "/" + name)
    ensures |ChildPath(dir, name)| <= |dir| + 1 + |name|
  {
    var href := ChildPath(dir, name);
    var n := |href| - |name| - 1;
    assert href == href[..n] + ("/" + name);
  }

  lemma ChildPathIsNormal(segs: seq<Segment>, name: string)
    requires GoodSegments(segs)
    ensures ChildPath(PathOf(segs), name) == PathOf(segs + [name])
  {
    JoinedAppend(segs, name);
    JoinedEndsInName(segs);
  }

  lemma ChildPathIsHref(path: string, name: string)
    requires GoodName(name)
    ensures IsChildHref(path, name, ChildPath(StripSlash(path), name))
  {
    ChildPathSpelling(StripSlash(path), name);
    ChildPathIsNormal(Segments(path), name);
    if NoDoubledSlash(path) {
      ChildHasNoDoubledSlash(path, name);
    }
  }
}
