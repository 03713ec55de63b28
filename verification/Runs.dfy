/** Whole runs: what may happen to the tree and the cache between two requests, what keeps the
    cache faithful, and what a resolver in front of it answers in every run. */
module Runs {
  import opened Options
  import opened Paths
  import opened Tree
  import opened TreeEdits
  import opened PathCache
  import opened CacheSafety

  datatype Event =
    | Resolved(path: string, answer: Option<Uid>, clean: bool)
    | Ordinary
    | Moved(uid: Uid, source: string, dest: string)

  /** An entry after the step is sound, or is the one that was there before. */
  ghost predicate EntryFollows(c: Cache, w': World, tenant: string, segs: seq<Segment>) {
    var m, m' := c.pathToUuid, w'.cache.pathToUuid;
    GoodSegments(segs) ==>
      && (Key(segs, "") in m' ==> Key(segs, "") in m && m'[Key(segs, "")] == m[Key(segs, "")])
      && (Key(segs, tenant) in m' ==>
            || Sound(w', m'[Key(segs, tenant)], segs)
            || (Key(segs, tenant) in m && m'[Key(segs, tenant)] == m[Key(segs, tenant)]))
  }

  /** PUT, MKCOL, DELETE, PROPFIND, COPY, everything before a MOVE's own change of the tree,
      other programs creating and deleting, and requests for other tenants. */
  ghost predicate OrdinaryStep(w: World, w': World, tenant: string) {
    && ValidWorld(w')
    && Quiet(w, w')
    && forall segs :: EntryFollows(w.cache, w', tenant, segs)
  }

  /** The change a MOVE answered 201 makes: the node has a new parent or name, and its entry went
      from the old path to the new one. It arrives exactly when the request is on track. */
  ghost predicate MoveStep(w: World, uid: Uid, source: string, dest: string, w': World, tenant: string) {
    var from, to := Segments(source), Segments(dest);
    && to != [] && At(w.tree, uid, from)
    && uid in w'.tree && Replaces(w.tree, uid, w'.tree[uid]) && w'.tree == w.tree[uid := w'.tree[uid]]
    && w'.tree[uid].name == to[|to| - 1]
    && (At(w'.tree, uid, to) <==> StaysOnTrack(source, dest))
    && w'.used == w.used
    && w'.cache == Mapped(Unmapped(w.cache, from, tenant), to, uid, tenant)
  }

  /** The cache places a node of the subtree at `uid` strictly below `from`. */
  ghost predicate EntryBelow(w: World, tenant: string, uid: Uid, from: seq<Segment>, q: seq<Segment>) {
    && GoodSegments(q) && from < q
    && Key(q, tenant) in w.cache.pathToUuid && w.cache.pathToUuid[Key(q, tenant)] in Subtree(w.tree, uid)
  }

  /** A MOVE that lands where it was asked to, of a node below which nothing is cached. */
  ghost predicate Tidy(w: World, uid: Uid, source: string, dest: string, tenant: string) {
    && StaysOnTrack(source, dest)
    && (Segments(source) == Segments(dest) || forall q :: !EntryBelow(w, tenant, uid, Segments(source), q))
  }

  ghost predicate Step(w: World, e: Event, w': World, tenant: string) {
    match e
    case Ordinary => OrdinaryStep(w, w', tenant)
    case Moved(uid, source, dest) => MoveStep(w, uid, source, dest, w', tenant)
    case Resolved(path, answer, clean) =>
      && w'.tree == w.tree && w'.used == w.used
      && exists uids :: Resolves(w.tree, w.cache, tenant, Segments(path), answer, w'.cache, uids, clean)
  }

  ghost predicate Run(ws: seq<World>, es: seq<Event>, tenant: string) {
    |ws| == |es| + 1 && forall i :: 0 <= i < |es| ==> Step(ws[i], es[i], ws[i + 1], tenant)
  }

  /** If this event is a MOVE, it is a tidy one. */
  ghost predicate TidyEvent(w: World, e: Event, tenant: string) {
    e.Moved? ==> Tidy(w, e.uid, e.source, e.dest, tenant)
  }

  /** Every MOVE among the first `n` events is tidy. */
  ghost predicate TidyBefore(ws: seq<World>, es: seq<Event>, tenant: string, n: nat)
    requires n <= |es| < |ws|
  {
    n > 0 ==> TidyBefore(ws, es, tenant, n - 1) && TidyEvent(ws[n - 1], es[n - 1], tenant)
  }

  // ----- what a MOVE does to belief -----

  lemma MoveStepIsValid(w: World, uid: Uid, source: string, dest: string, w': World, tenant: string)
    requires ValidWorld(w) && MoveStep(w, uid, source, dest, w', tenant)
    ensures ValidWorld(w') && uid != ROOT && Segments(source) != []
  {
    ReplaceKeepsWellFormed(w.tree, uid, w'.tree[uid]);
  }

  /** What is below the moved node keeps its place under it. */
  lemma {:induction false} CarriedAlong(t: Tree, u: Uid, n: Node, from: seq<Segment>, to: seq<Segment>,
                                        v: Uid, d: nat, q: seq<Segment>)
    requires WellFormed(t) && u in t && Climbs(t, v, u, d)
    requires At(t, u, from) && At(t[u := n], u, to) && At(t, v, q)
    ensures from <= q && At(t[u := n], v, to + q[|from|..])
    decreases d
  {
    if v == u {
      AtIsUnique(t, u, from, q);
      assert to + q[|from|..] == to;
    } else {
      var above := q[..|q| - 1];
      CarriedAlong(t, u, n, from, to, t[v].parent, d - 1, above);
      AtChild(t[u := n], v, to + above[|from|..]);
      assert to + q[|from|..] == to + above[|from|..] + [t[v].name];
    }
  }

  lemma EntryAfterMove(c: Cache, from: seq<Segment>, to: seq<Segment>, uid: Uid, tenant: string,
                       q: seq<Segment>, s: string)
    requires ':' !in tenant && ':' !in s && GoodSegments(from) && GoodSegments(to) && GoodSegments(q)
    ensures EntryOf(Mapped(Unmapped(c, from, tenant), to, uid, tenant).pathToUuid, Key(q, s)) ==
            if s == tenant && q == to then Some(uid)
            else if s == tenant && q == from then None
            else EntryOf(c.pathToUuid, Key(q, s))
  {
    EntryAfterUnmapping(c, from, tenant, q, s);
    EntryAfterMapping(Unmapped(c, from, tenant), to, uid, tenant, q, s);
  }

  /** A node is at its path after a MOVE too, unless it was below one that went elsewhere. */
  lemma StaysUnlessCarried(t: Tree, u: Uid, n: Node, from: seq<Segment>, to: seq<Segment>, v: Uid, q: seq<Segment>)
    requires WellFormed(t) && u in t && At(t, u, from) && At(t[u := n], u, to) && At(t, v, q)
    requires Within(t, v, u) ==> from == to
    ensures At(t[u := n], v, q)
  {
    if Within(t, v, u) {
      var d: nat :| Climbs(t, v, u, d);
      CarriedAlong(t, u, n, from, to, v, d, q);
      assert to + q[|from|..] == q;
    } else {
      AtAvoids(t, t[u := n], u, v, q);
    }
  }

  /** On track, a MOVE keeps belief about every path but the ones cached below the old place. */
  lemma OnTrackKeepsBelieved(w: World, uid: Uid, source: string, dest: string, w': World, tenant: string,
                             q: seq<Segment>)
    requires PlainTenant(tenant) && ValidWorld(w) && Believed(w, tenant, q)
    requires MoveStep(w, uid, source, dest, w', tenant) && StaysOnTrack(source, dest)
    requires Segments(source) == Segments(dest) || !EntryBelow(w, tenant, uid, Segments(source), q)
    ensures Believed(w', tenant, q)
  {
    var from, to := Segments(source), Segments(dest);
    if GoodSegments(q) {
      EntryAfterMove(w.cache, from, to, uid, tenant, q, "");
      EntryAfterMove(w.cache, from, to, uid, tenant, q, tenant);
      if q != to && q != from && q != [] && Key(q, tenant) in w.cache.pathToUuid {
        var v := w.cache.pathToUuid[Key(q, tenant)];
        if v in w.tree {
          if Within(w.tree, v, uid) {
            WithinIsBelow(w.tree, v, uid, q, from);
          }
          StaysUnlessCarried(w.tree, uid, w'.tree[uid], from, to, v, q);
        }
      }
    }
  }

  /** Off track, the entry recorded at the destination names a node that is elsewhere. */
  lemma OffTrackMisleads(w: World, uid: Uid, source: string, dest: string, w': World, tenant: string)
    requires MoveStep(w, uid, source, dest, w', tenant) && !StaysOnTrack(source, dest)
    ensures Misleads(w', tenant)
  {
    BadEntryMisleads(w', tenant, Segments(dest));
  }

  /** Where sibling names are unique, a node never moves below its own old path. */
  lemma NeverBelowItself(w: World, uid: Uid, source: string, dest: string, w': World, tenant: string)
    requires ValidWorld(w) && UniqueNames(w.tree)
    requires MoveStep(w, uid, source, dest, w', tenant) && StaysOnTrack(source, dest)
    ensures !(Segments(source) < Segments(dest))
  {
    var from, to := Segments(source), Segments(dest);
    if from < to {
      MoveStepIsValid(w, uid, source, dest, w', tenant);
      var x := AncestorAt(w'.tree, uid, to, |from|);
      assert to[..|from|] == from;
      if Within(w'.tree, x, uid) {
        WithinIsBelow(w'.tree, x, uid, from, to);
      }
      AtAvoids(w'.tree, w.tree, uid, x, from);
      AtIsInjective(w.tree, uid, x, from);
      WithinSelf(w'.tree, uid);
    }
  }

  lemma SameFrontIsSame(from: seq<Segment>, to: seq<Segment>, q: seq<Segment>)
    requires from <= q && q == to + q[|from|..]
    ensures from == to
  {
    assert |from| == |to|;
    assert q[..|from|] == from && q[..|to|] == to;
  }

  /** On track but elsewhere, an entry below the old place misleads from then on. */
  lemma EntryBelowMisleads(w: World, uid: Uid, source: string, dest: string, w': World, tenant: string,
                           q: seq<Segment>)
    requires PlainTenant(tenant) && UniqueNames(w.tree) && ValidWorld(w) && Believed(w, tenant, q)
    requires MoveStep(w, uid, source, dest, w', tenant) && StaysOnTrack(source, dest)
    requires Segments(source) != Segments(dest) && EntryBelow(w, tenant, uid, Segments(source), q)
    ensures Misleads(w', tenant)
  {
    var from, to, n := Segments(source), Segments(dest), w'.tree[uid];
    var v := w.cache.pathToUuid[Key(q, tenant)];
    NeverBelowItself(w, uid, source, dest, w', tenant);
    MoveStepIsValid(w, uid, source, dest, w', tenant);
    var d: nat :| Climbs(w.tree, v, uid, d);
    CarriedAlong(w.tree, uid, n, from, to, v, d, q);
    if v == uid {
      AtIsUnique(w.tree, uid, from, q);
    }
    EntryAfterMove(w.cache, from, to, uid, tenant, q, tenant);
    if At(w'.tree, v, q) {
      AtIsUnique(w'.tree, v, q, to + q[|from|..]);
      SameFrontIsSame(from, to, q);
    }
    BadEntryMisleads(w', tenant, q);
  }

  /** Below a node without children nothing is cached. */
  lemma ChildlessHasNothingBelow(w: World, uid: Uid, source: string, dest: string, w': World, tenant: string,
                                 q: seq<Segment>)
    requires ValidWorld(w) && Believed(w, tenant, q)
    requires MoveStep(w, uid, source, dest, w', tenant) && !HasChild(w'.tree, uid)
    ensures !EntryBelow(w, tenant, uid, Segments(source), q)
  {
    if EntryBelow(w, tenant, uid, Segments(source), q) {
      ReplaceKeepsSubtree(w.tree, uid, w'.tree[uid]);
      var v := w.cache.pathToUuid[Key(q, tenant)];
      var d: nat :| Climbs(w'.tree, v, uid, d);
      LeafHasNothingWithin(w'.tree, v, uid, d);
      AtIsUnique(w.tree, uid, Segments(source), q);
    }
  }

  lemma TidyMoveKeepsFaithful(w: World, uid: Uid, source: string, dest: string, w': World, tenant: string)
    requires PlainTenant(tenant) && Faithful(w, tenant) && MoveStep(w, uid, source, dest, w', tenant)
    requires Tidy(w, uid, source, dest, tenant)
    ensures Faithful(w', tenant)
  {
    MoveStepIsValid(w, uid, source, dest, w', tenant);
    forall q
      ensures Believed(w', tenant, q)
    {
      assert Believed(w, tenant, q);
      OnTrackKeepsBelieved(w, uid, source, dest, w', tenant, q);
    }
  }

  /** Where sibling names are unique, a MOVE keeps the cache faithful exactly when it is tidy, and
      otherwise the resolver answers a wrong node from then on. */
  lemma MoveIsSafeExactly(w: World, uid: Uid, source: string, dest: string, w': World, tenant: string)
    requires PlainTenant(tenant) && Faithful(w, tenant) && MoveStep(w, uid, source, dest, w', tenant)
    requires UniqueNames(w.tree)
    ensures Faithful(w', tenant) <==> Tidy(w, uid, source, dest, tenant)
    ensures Misleads(w', tenant) <==> !Tidy(w, uid, source, dest, tenant)
  {
    if Tidy(w, uid, source, dest, tenant) {
      TidyMoveKeepsFaithful(w, uid, source, dest, w', tenant);
    } else if !StaysOnTrack(source, dest) {
      OffTrackMisleads(w, uid, source, dest, w', tenant);
    } else {
      var q :| EntryBelow(w, tenant, uid, Segments(source), q);
      assert Believed(w, tenant, q);
      EntryBelowMisleads(w, uid, source, dest, w', tenant, q);
    }
    if Faithful(w', tenant) {
      FaithfulNeverMisleads(w', tenant);
    }
  }

  /** For a node without children that is exactly when it is on track, twin names or not. */
  lemma ChildlessMoveIsSafeExactly(w: World, uid: Uid, source: string, dest: string, w': World, tenant: string)
    requires PlainTenant(tenant) && Faithful(w, tenant) && MoveStep(w, uid, source, dest, w', tenant)
    requires !HasChild(w'.tree, uid)
    ensures Faithful(w', tenant) <==> StaysOnTrack(source, dest)
    ensures Misleads(w', tenant) <==> !StaysOnTrack(source, dest)
  {
    if StaysOnTrack(source, dest) {
      forall q
        ensures !EntryBelow(w, tenant, uid, Segments(source), q)
      {
        assert Believed(w, tenant, q);
        ChildlessHasNothingBelow(w, uid, source, dest, w', tenant, q);
      }
      TidyMoveKeepsFaithful(w, uid, source, dest, w', tenant);
    } else {
      OffTrackMisleads(w, uid, source, dest, w', tenant);
    }
    if Faithful(w', tenant) {
      FaithfulNeverMisleads(w', tenant);
    }
  }

  // ----- runs -----

  lemma OrdinaryKeepsBelieved(w: World, w': World, tenant: string, segs: seq<Segment>)
    requires ValidWorld(w) && OrdinaryStep(w, w', tenant) && Believed(w, tenant, segs)
    ensures Believed(w', tenant, segs)
  {
    assert EntryFollows(w.cache, w', tenant, segs);
    QuietKeepsBelieved(w, w'.(cache := w.cache), tenant, segs);
  }

  lemma StepKeepsFaithful(w: World, e: Event, w': World, tenant: string)
    requires PlainTenant(tenant) && Faithful(w, tenant) && Step(w, e, w', tenant) && TidyEvent(w, e, tenant)
    ensures Faithful(w', tenant)
  {
    match e
    case Moved(uid, source, dest) =>
      TidyMoveKeepsFaithful(w, uid, source, dest, w', tenant);
    case Ordinary =>
      forall segs
        ensures Believed(w', tenant, segs)
      {
        assert Believed(w, tenant, segs);
        OrdinaryKeepsBelieved(w, w', tenant, segs);
      }
    case Resolved(path, answer, clean) =>
      var uids :| Resolves(w.tree, w.cache, tenant, Segments(path), answer, w'.cache, uids, clean);
      forall segs
        ensures Believed(w', tenant, segs)
      {
        assert Believed(w, tenant, segs);
        ResolveKeepsBelieved(w, tenant, Segments(path), answer, w'.cache, uids, clean, segs);
      }
  }

  /** A step from a faithful world without twin names leads to a faithful one exactly when it is
      no untidy MOVE. */
  lemma StepIsFaithfulExactly(w: World, e: Event, w': World, tenant: string)
    requires PlainTenant(tenant) && Faithful(w, tenant) && Step(w, e, w', tenant) && UniqueNames(w.tree)
    ensures Faithful(w', tenant) <==> TidyEvent(w, e, tenant)
  {
    if e.Moved? {
      MoveIsSafeExactly(w, e.uid, e.source, e.dest, w', tenant);
    } else {
      StepKeepsFaithful(w, e, w', tenant);
    }
  }

  /** The cache a fresh resolver starts from. */
  function FreshCache(): Cache {
    Mapped(Mapped(Cache(map[], map[]), [], ROOT, "default"), [], ROOT, "")
  }

  lemma FreshCacheIsFaithful(t: Tree, used: set<Uid>, tenant: string)
    requires PlainTenant(tenant) && ValidWorld(World(t, used, FreshCache()))
    ensures Faithful(World(t, used, FreshCache()), tenant)
  {
    forall segs
      ensures Believed(World(t, used, FreshCache()), tenant, segs)
    {
      if GoodSegments(segs) {
        KeysAreApart(segs, "", [], "default") by { assert "default"[0] == 'd'; }
        KeysAreApart(segs, tenant, [], "default");
        KeysAreApart(segs, "", [], "");
        KeysAreApart(segs, tenant, [], "");
      }
    }
  }

  /** While every MOVE of a run is tidy, the cache may be believed. */
  lemma {:induction false} RunIsFaithful(ws: seq<World>, es: seq<Event>, tenant: string, n: nat)
    requires PlainTenant(tenant) && Run(ws, es, tenant) && Faithful(ws[0], tenant) && n < |ws|
    requires TidyBefore(ws, es, tenant, n)
    ensures Faithful(ws[n], tenant)
  {
    if n > 0 {
      RunIsFaithful(ws, es, tenant, n - 1);
      StepKeepsFaithful(ws[n - 1], es[n - 1], ws[n], tenant);
    }
  }

  /** The cache may be believed in the first world and after each of the first `n` events. */
  ghost predicate FaithfulUpTo(ws: seq<World>, tenant: string, n: nat)
    requires n < |ws|
  {
    Faithful(ws[n], tenant) && (n > 0 ==> FaithfulUpTo(ws, tenant, n - 1))
  }

  /** A run without twin names is faithful throughout exactly when all its MOVEs are tidy. */
  lemma {:induction false} FaithfulRunsExactly(ws: seq<World>, es: seq<Event>, tenant: string, n: nat)
    requires PlainTenant(tenant) && Run(ws, es, tenant) && Faithful(ws[0], tenant) && n < |ws|
    requires forall i :: 0 <= i < n ==> UniqueNames(ws[i].tree)
    ensures FaithfulUpTo(ws, tenant, n) <==> TidyBefore(ws, es, tenant, n)
  {
    if n > 0 {
      FaithfulRunsExactly(ws, es, tenant, n - 1);
      assert Step(ws[n - 1], es[n - 1], ws[n], tenant);
      if FaithfulUpTo(ws, tenant, n - 1) {
        StepIsFaithfulExactly(ws[n - 1], es[n - 1], ws[n], tenant);
      }
    }
  }

  /** An answer is the node at the path, and a clean one the uncached walk's. */
  ghost predicate RightAnswer(t: Tree, path: string, answer: Option<Uid>, clean: bool) {
    && (answer.Some? ==> At(t, answer.value, Segments(path)))
    && (clean && UniqueNames(t) ==> answer == UncachedWalk(t, Segments(path)))
  }

  /** In every run from a fresh resolver over any valid tree whose MOVEs are tidy, an answer is
      the node at that path even when remote calls fail; and where sibling names are unique and
      all calls got through, it is exactly the uncached walk's answer. */
  lemma CacheRefinesWalk(ws: seq<World>, es: seq<Event>, tenant: string, n: nat)
    requires PlainTenant(tenant) && Run(ws, es, tenant)
    requires ValidWorld(ws[0]) && ws[0].cache == FreshCache()
    requires n < |es| && es[n].Resolved? && TidyBefore(ws, es, tenant, n)
    ensures RightAnswer(ws[n].tree, es[n].path, es[n].answer, es[n].clean)
  {
    FreshCacheIsFaithful(ws[0].tree, ws[0].used, tenant);
    RunIsFaithful(ws, es, tenant, n);
    var w, segs, answer := ws[n], Segments(es[n].path), es[n].answer;
    assert Believed(w, tenant, segs);
    assert Step(w, es[n], ws[n + 1], tenant);
    var uids :| Resolves(w.tree, w.cache, tenant, segs, answer, ws[n + 1].cache, uids, es[n].clean);
    if answer.Some? {
      AnswerIsAtPath(w, tenant, segs, answer, ws[n + 1].cache, uids, es[n].clean);
    }
    if es[n].clean && UniqueNames(w.tree) {
      CleanAnswerIsTheWalk(w, tenant, segs, answer, ws[n + 1].cache, uids);
    }
  }

  /** A request for another tenant is an ordinary step of this tenant's run. */
  lemma OtherTenantsAreOrdinary(w: World, c': Cache, other: string, tenant: string)
    requires PlainTenant(tenant) && PlainTenant(other) && other != tenant
    requires ValidWorld(w) && OnlyUnder(w.cache, c', other)
    ensures OrdinaryStep(w, w.(cache := c'), tenant)
  {
    forall segs
      ensures EntryFollows(w.cache, w.(cache := c'), tenant, segs)
    {
      if GoodSegments(segs) {
        assert EntryOf(c'.pathToUuid, Key(segs, "")) == EntryOf(w.cache.pathToUuid, Key(segs, ""));
        assert EntryOf(c'.pathToUuid, Key(segs, tenant)) == EntryOf(w.cache.pathToUuid, Key(segs, tenant));
      }
    }
  }
}
