/** The small steps a handler is made of never make the cache less believable about any path. */
module Belief {
  import opened Options
  import opened Paths
  import opened Tree
  import opened TreeRemoval
  import opened PathCache
  import opened CacheSafety
  import opened Runs

  /** Whatever path the cache could be believed about before, it still can. */
  ghost predicate BeliefKept(w: World, w': World, tenant: string) {
    forall segs :: Believed(w, tenant, segs) ==> Believed(w', tenant, segs)
  }

  /** From `w` on, nodes only left or arrived under fresh uids, no other tenant's entries were
      touched, and belief was kept. */
  ghost predicate Follows(w: World, w': World, tenant: string) {
    ValidWorld(w') && Quiet(w, w') && OnlyUnder(w.cache, w'.cache, tenant) && BeliefKept(w, w', tenant)
  }

  /** The cache may be believed about every path a transfer from `src` to `dst` resolves. */
  ghost predicate BelievedAround(w: World, tenant: string, src: string, dst: string) {
    && Believed(w, tenant, Segments(src)) && Believed(w, tenant, Segments(dst))
    && Believed(w, tenant, Segments(ParentOf(dst)))
  }

  /** The ends a transfer found are where their paths say, and the source's entry names it. */
  ghost predicate Located(w: World, w': World, tenant: string, src: string, dst: string, needParent: bool,
                          uid: Uid, parent: Uid) {
    && uid != ROOT
    && (Believed(w, tenant, Segments(src)) ==> At(w'.tree, uid, Segments(src)))
    && (needParent && Believed(w, tenant, Segments(ParentOf(dst))) ==> At(w'.tree, parent, Segments(ParentOf(dst))))
    && (UniqueNames(w.tree) && BelievedAround(w, tenant, src, dst) ==>
          || (needParent && parent == uid)
          || EntryOf(w'.cache.pathToUuid, Key(Segments(src), tenant)) == Some(uid))
  }

  lemma Resolving(w: World, tenant: string, at: seq<Segment>, answer: Option<Uid>, c': Cache, uids: seq<Uid>,
                  clean: bool)
    requires PlainTenant(tenant) && GoodSegments(at) && ValidWorld(w)
    requires Resolves(w.tree, w.cache, tenant, at, answer, c', uids, clean)
    ensures Follows(w, w.(cache := c'), tenant)
    ensures OnlyOnTheWay(w.cache, c', tenant, at, at)
  {
    ResolvingStaysOnTheWay(w.tree, w.cache, tenant, at, answer, c', uids, clean);
    forall segs | Believed(w, tenant, segs)
      ensures Believed(w.(cache := c'), tenant, segs)
    {
      ResolveKeepsBelieved(w, tenant, at, answer, c', uids, clean, segs);
    }
  }

  lemma ChangingQuietly(w: World, w': World, tenant: string)
    requires ValidWorld(w) && ValidWorld(w') && Quiet(w, w') && w'.cache == w.cache
    ensures Follows(w, w', tenant)
  {
    forall segs | Believed(w, tenant, segs)
      ensures Believed(w', tenant, segs)
    {
      QuietKeepsBelieved(w, w', tenant, segs);
    }
  }

  /** Changing our own entries touches no other tenant's. */
  lemma MappingIsOurs(c: Cache, tenant: string, at: seq<Segment>, u: Uid)
    requires ':' !in tenant && GoodSegments(at)
    ensures OnlyUnder(c, Mapped(c, at, u, tenant), tenant)
  {
    forall q, s | GoodSegments(q) && ':' !in s && s != tenant
      ensures EntryOf(Mapped(c, at, u, tenant).pathToUuid, Key(q, s)) == EntryOf(c.pathToUuid, Key(q, s))
    {
      EntryAfterMapping(c, at, u, tenant, q, s);
    }
  }

  lemma Mapping(w: World, tenant: string, at: seq<Segment>, u: Uid)
    requires PlainTenant(tenant) && GoodSegments(at) && Sound(w, u, at)
    ensures ValidWorld(w) ==> Follows(w, w.(cache := Mapped(w.cache, at, u, tenant)), tenant)
  {
    MappingIsOurs(w.cache, tenant, at, u);
    forall segs | Believed(w, tenant, segs)
      ensures Believed(w.(cache := Mapped(w.cache, at, u, tenant)), tenant, segs)
    {
      MapKeepsBelieved(w, tenant, at, u, segs);
    }
  }

  lemma StayingOurs(c: Cache, c1: Cache, c': Cache, tenant: string)
    requires OnlyUnder(c, c1, tenant) && OnlyUnder(c1, c', tenant)
    ensures OnlyUnder(c, c', tenant)
  {
  }

  lemma UnmappingIsOurs(c: Cache, tenant: string, at: seq<Segment>)
    requires ':' !in tenant && GoodSegments(at)
    ensures OnlyUnder(c, Unmapped(c, at, tenant), tenant)
    ensures OnlyOnTheWay(c, Unmapped(c, at, tenant), tenant, at, at)
  {
    forall q, s | GoodSegments(q) && ':' !in s && (s != tenant || q != at)
      ensures EntryOf(Unmapped(c, at, tenant).pathToUuid, Key(q, s)) == EntryOf(c.pathToUuid, Key(q, s))
    {
      EntryAfterUnmapping(c, at, tenant, q, s);
    }
  }

  /** Neither does moving an entry, as a MOVE does. */
  lemma MovingIsOurs(c: Cache, tenant: string, from: seq<Segment>, to: seq<Segment>, u: Uid)
    requires ':' !in tenant && GoodSegments(from) && GoodSegments(to)
    ensures OnlyUnder(c, Mapped(Unmapped(c, from, tenant), to, u, tenant), tenant)
  {
    UnmappingIsOurs(c, tenant, from);
    MappingIsOurs(Unmapped(c, from, tenant), tenant, to, u);
    StayingOurs(c, Unmapped(c, from, tenant), Mapped(Unmapped(c, from, tenant), to, u, tenant), tenant);
  }

  lemma Unmapping(w: World, tenant: string, at: seq<Segment>)
    requires PlainTenant(tenant) && GoodSegments(at)
    ensures ValidWorld(w) ==> Follows(w, w.(cache := Unmapped(w.cache, at, tenant)), tenant)
  {
    UnmappingIsOurs(w.cache, tenant, at);
    forall segs | Believed(w, tenant, segs)
      ensures Believed(w.(cache := Unmapped(w.cache, at, tenant)), tenant, segs)
    {
      UnmapKeepsBelieved(w, tenant, at, segs);
    }
  }

  lemma Chaining(w: World, w1: World, w': World, tenant: string)
    requires Follows(w, w1, tenant) && Follows(w1, w', tenant)
    ensures Follows(w, w', tenant)
  {
    StayingOurs(w.cache, w1.cache, w'.cache, tenant);
    forall segs | Believed(w, tenant, segs)
      ensures Believed(w', tenant, segs)
    {
      assert Believed(w1, tenant, segs);
    }
  }

  /** Two stretches that each stay on the way to places on the way to `a` or `b`. */
  lemma StayingOnTheWay(c: Cache, c1: Cache, c': Cache, tenant: string, p: seq<Segment>, q: seq<Segment>,
                        a: seq<Segment>, b: seq<Segment>)
    requires OnlyOnTheWay(c, c1, tenant, a, b) && OnlyOnTheWay(c1, c', tenant, p, q)
    requires (p <= a || p <= b) && (q <= a || q <= b)
    ensures OnlyOnTheWay(c, c', tenant, a, b)
  {
    forall r | GoodSegments(r) && !(r <= a) && !(r <= b)
      ensures EntryOf(c'.pathToUuid, Key(r, tenant)) == EntryOf(c.pathToUuid, Key(r, tenant))
    {
      assert !(r <= p) && !(r <= q);
    }
  }

  lemma Removing(w: World, t': Tree, top: Uid, gone: seq<Uid>, tenant: string)
    requires ValidWorld(w) && WellFormed(t') && Removal(w.tree, t', top, gone)
    ensures Follows(w, w.(tree := t'), tenant)
  {
    ChangingQuietly(w, w.(tree := t'), tenant);
  }

  lemma Adding(w: World, u: Uid, n: Node, tenant: string)
    requires ValidWorld(w) && WellFormed(w.tree[u := n]) && u !in w.used && u != ROOT
    ensures Follows(w, World(w.tree[u := n], w.used + {u}, w.cache), tenant)
  {
    ChangingQuietly(w, World(w.tree[u := n], w.used + {u}, w.cache), tenant);
  }

  lemma FollowingKeepsFaithful(w: World, w': World, tenant: string)
    requires Faithful(w, tenant) && Follows(w, w', tenant)
    ensures Faithful(w', tenant)
  {
    forall segs
      ensures Believed(w', tenant, segs)
    {
      assert Believed(w, tenant, segs);
    }
  }

  /** From a faithful world, following is an ordinary step of a run. */
  lemma FollowingIsOrdinary(w: World, w': World, tenant: string)
    requires PlainTenant(tenant) && Faithful(w, tenant) && Follows(w, w', tenant)
    ensures OrdinaryStep(w, w', tenant)
  {
    forall segs
      ensures EntryFollows(w.cache, w', tenant, segs)
    {
      assert Believed(w, tenant, segs);
      assert Believed(w', tenant, segs);
      if GoodSegments(segs) {
        assert EntryOf(w'.cache.pathToUuid, Key(segs, "")) == EntryOf(w.cache.pathToUuid, Key(segs, ""));
      }
    }
  }

  /** So is anything other programs create or delete between two requests. */
  lemma OutsideChangesAreOrdinary(w: World, w': World, tenant: string)
    requires PlainTenant(tenant) && Faithful(w, tenant) && ValidWorld(w') && w'.cache == w.cache && Quiet(w, w')
    ensures OrdinaryStep(w, w', tenant)
  {
    ChangingQuietly(w, w', tenant);
    FollowingIsOrdinary(w, w', tenant);
  }
}
