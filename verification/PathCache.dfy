/** The resolver's two maps as a value: what creating and removing a mapping does to
    them, what a lookup finds, and what one call of the resolver may do. */
module PathCache {
  import opened Options
  import opened Strings
  import opened Paths
  import opened Tree

  datatype Cache = Cache(pathToUuid: map<string, Uid>, uuidToPath: map<string, string>)

  function CacheKey(text: string, tenant: string): string {
    tenant + ":" + text
  }

  /** The key of a canonical path. */
  function Key(segs: seq<Segment>, tenant: string): string {
    CacheKey(PathOf(segs), tenant)
  }

  function Mapped(c: Cache, segs: seq<Segment>, uuid: Uid, tenant: string): Cache {
    Cache(c.pathToUuid[Key(segs, tenant) := uuid],
          c.uuidToPath[CacheKey(uuid, tenant) := PathOf(segs)])
  }

  function Unmapped(c: Cache, segs: seq<Segment>, tenant: string): Cache {
    if Key(segs, tenant) in c.pathToUuid then
      Cache(c.pathToUuid - {Key(segs, tenant)},
            c.uuidToPath - {CacheKey(c.pathToUuid[Key(segs, tenant)], tenant)})
    else c
  }

  /** What resolving consults: the tenant's own entry, then the one of the empty tenant. */
  function Found(c: Cache, segs: seq<Segment>, tenant: string): Option<Uid> {
    if Key(segs, tenant) in c.pathToUuid then Some(c.pathToUuid[Key(segs, tenant)])
    else if tenant != "" && Key(segs, "") in c.pathToUuid then Some(c.pathToUuid[Key(segs, "")])
    else None
  }

  /** The cache-only lookup, which also lets the empty tenant see the default one's entries. */
  function CacheOnly(c: Cache, segs: seq<Segment>, tenant: string): Uid {
    match Found(c, segs, tenant)
    case Some(u) => u
    case None =>
      if tenant == "" && Key(segs, "default") in c.pathToUuid then c.pathToUuid[Key(segs, "default")] else ROOT
  }

  // ----- keys -----

  lemma SameTenantKeys(a: seq<Segment>, b: seq<Segment>, tenant: string)
    requires GoodSegments(a) && GoodSegments(b) && Key(a, tenant) == Key(b, tenant)
    ensures a == b
  {
    var p, q := PathOf(a), PathOf(b);
    assert (tenant + ":" + p)[|tenant| + 1..] == p;
    assert (tenant + ":" + q)[|tenant| + 1..] == q;
    SegmentsOfPath(a);
    SegmentsOfPath(b);
  }

  /** Tenants without a colon never share a key. */
  lemma KeysAreApart(a: seq<Segment>, s: string, b: seq<Segment>, t: string)
    requires GoodSegments(a) && GoodSegments(b) && ':' !in s && ':' !in t
    ensures Key(a, s) == Key(b, t) <==> a == b && s == t
  {
    if Key(a, s) == Key(b, t) {
      JoinIsInjective(s, PathOf(a), t, PathOf(b), ':');
      SameTenantKeys(a, b, s);
    }
  }

  /** With a colon in a tenant they can. */
  lemma ColonTenantsCanClash()
    ensures Key(["x:", "y"], "t") == Key(["y"], "t:/x")
  {
    assert Joined(["x:", "y"]) == Joined(["x:"]) + "/" + "y" == "/x:/y" by {
      assert ["x:", "y"][..1] == ["x:"];
      assert Joined(["x:"]) == Joined([]) + "/" + "x:" by { assert ["x:"][..0] == []; }
    }
    assert Joined(["y"]) == "/y" by { assert ["y"][..0] == []; }
  }

  // ----- entries -----

  /** The path entry for this key is `u`, if there is one. */
  predicate EntryIs(m: map<string, Uid>, key: string, u: Option<Uid>) {
    if u.Some? then key in m && m[key] == u.value else key !in m
  }

  function EntryOf(m: map<string, Uid>, key: string): Option<Uid> {
    if key in m then Some(m[key]) else None
  }

  /** Only entries of this tenant differ. */
  ghost predicate OnlyUnder(c: Cache, c': Cache, tenant: string) {
    forall q, s {:trigger Key(q, s)} :: GoodSegments(q) && ':' !in s && s != tenant ==>
      EntryOf(c'.pathToUuid, Key(q, s)) == EntryOf(c.pathToUuid, Key(q, s))
  }

  /** Of this tenant's entries, only those at the places on the way to `a` or to `b` differ. */
  ghost predicate OnlyOnTheWay(c: Cache, c': Cache, tenant: string, a: seq<Segment>, b: seq<Segment>) {
    forall q {:trigger Key(q, tenant)} :: GoodSegments(q) && !(q <= a) && !(q <= b) ==>
      EntryOf(c'.pathToUuid, Key(q, tenant)) == EntryOf(c.pathToUuid, Key(q, tenant))
  }

  lemma EntryAfterMapping(c: Cache, at: seq<Segment>, u: Uid, tenant: string, q: seq<Segment>, s: string)
    requires GoodSegments(at) && GoodSegments(q) && ':' !in tenant && ':' !in s
    ensures EntryOf(Mapped(c, at, u, tenant).pathToUuid, Key(q, s)) ==
            if q == at && s == tenant then Some(u) else EntryOf(c.pathToUuid, Key(q, s))
  {
    KeysAreApart(q, s, at, tenant);
  }

  lemma EntryAfterUnmapping(c: Cache, at: seq<Segment>, tenant: string, q: seq<Segment>, s: string)
    requires GoodSegments(at) && GoodSegments(q) && ':' !in tenant && ':' !in s
    ensures EntryOf(Unmapped(c, at, tenant).pathToUuid, Key(q, s)) ==
            if q == at && s == tenant then None else EntryOf(c.pathToUuid, Key(q, s))
  {
    KeysAreApart(q, s, at, tenant);
  }

  // ----- the walk -----

  function Above(uids: seq<Uid>, k: nat): Uid
    requires k <= |uids|
  {
    if k == 0 then ROOT else uids[k - 1]
  }

  ghost predicate Link(t: Tree, segs: seq<Segment>, uids: seq<Uid>, k: nat)
    requires k < |uids| <= |segs|
  {
    uids[k] in t && t[uids[k]].name == segs[k] && t[uids[k]].parent == Above(uids, k)
  }

  /** `uids` descends from the root along the first |uids| names of `segs`. */
  ghost predicate Chain(t: Tree, segs: seq<Segment>, uids: seq<Uid>) {
    |uids| <= |segs| && forall k {:trigger Link(t, segs, uids, k)} :: 0 <= k < |uids| ==> Link(t, segs, uids, k)
  }

  ghost predicate NoChildNamed(t: Tree, dir: Uid, name: string) {
    forall u :: u in t && t[u].parent == dir ==> t[u].name != name
  }

  /** One mapping for every depth the walk reached. */
  function Recorded(c: Cache, tenant: string, segs: seq<Segment>, uids: seq<Uid>): Cache
    requires |uids| <= |segs|
  {
    if uids == [] then c
    else
      var k := |uids| - 1;
      Mapped(Recorded(c, tenant, segs, uids[..k]), segs[..k + 1], uids[k], tenant)
  }

  lemma ChainPrefix(t: Tree, segs: seq<Segment>, uids: seq<Uid>, k: nat)
    requires Chain(t, segs, uids) && k <= |uids|
    ensures Chain(t, segs, uids[..k])
  {
    forall i | 0 <= i < k
      ensures Link(t, segs, uids[..k], i)
    {
      assert Link(t, segs, uids, i);
    }
  }

  lemma {:induction false} ChainIsAt(t: Tree, segs: seq<Segment>, uids: seq<Uid>, k: nat)
    requires Chain(t, segs, uids) && k <= |uids|
    ensures At(t, Above(uids, k), segs[..k])
  {
    if k > 0 {
      assert Link(t, segs, uids, k - 1);
      ChainIsAt(t, segs, uids, k - 1);
      assert segs[..k][..k - 1] == segs[..k - 1];
    }
  }

  lemma {:induction false} RecordedEntry(c: Cache, tenant: string, segs: seq<Segment>, uids: seq<Uid>, k: nat)
    requires GoodSegments(segs) && 1 <= k <= |uids| <= |segs|
    ensures var m := Recorded(c, tenant, segs, uids).pathToUuid;
            Key(segs[..k], tenant) in m && m[Key(segs[..k], tenant)] == uids[k - 1]
  {
    var n := |uids|;
    if k < n {
      RecordedEntry(c, tenant, segs, uids[..n - 1], k);
      if Key(segs[..k], tenant) == Key(segs[..n], tenant) {
        SameTenantKeys(segs[..k], segs[..n], tenant);
      }
    }
  }

  lemma {:induction false} RecordedElsewhere(c: Cache, tenant: string, segs: seq<Segment>, uids: seq<Uid>, key: string)
    requires |uids| <= |segs|
    requires forall k :: 1 <= k <= |uids| ==> key != Key(segs[..k], tenant)
    ensures var m := Recorded(c, tenant, segs, uids).pathToUuid;
            if key in c.pathToUuid then key in m && m[key] == c.pathToUuid[key] else key !in m
  {
    if uids != [] {
      RecordedElsewhere(c, tenant, segs, uids[..|uids| - 1], key);
    }
  }

  /** No depth of the walk has this key. */
  ghost predicate OffTheWalk(segs: seq<Segment>, tenant: string, depth: nat, key: string)
    requires depth <= |segs|
  {
    forall k :: 1 <= k <= depth ==> key != Key(segs[..k], tenant)
  }

  /** A walk leaves exactly one entry per depth it reached, and changes no other path entry. */
  lemma RecordedExactly(c: Cache, tenant: string, segs: seq<Segment>, uids: seq<Uid>)
    requires GoodSegments(segs) && |uids| <= |segs|
    ensures forall k :: 1 <= k <= |uids| ==>
              EntryIs(Recorded(c, tenant, segs, uids).pathToUuid, Key(segs[..k], tenant), Some(uids[k - 1]))
    ensures forall key :: OffTheWalk(segs, tenant, |uids|, key) ==>
              EntryIs(Recorded(c, tenant, segs, uids).pathToUuid, key, EntryOf(c.pathToUuid, key))
  {
    forall k | 1 <= k <= |uids|
      ensures EntryIs(Recorded(c, tenant, segs, uids).pathToUuid, Key(segs[..k], tenant), Some(uids[k - 1]))
    {
      RecordedEntry(c, tenant, segs, uids, k);
    }
    forall key | OffTheWalk(segs, tenant, |uids|, key)
      ensures EntryIs(Recorded(c, tenant, segs, uids).pathToUuid, key, EntryOf(c.pathToUuid, key))
    {
      RecordedElsewhere(c, tenant, segs, uids, key);
    }
  }

  lemma {:induction false} RecordedAppend(c: Cache, tenant: string, segs: seq<Segment>, uids: seq<Uid>, u: Uid)
    requires |uids| < |segs|
    ensures Recorded(c, tenant, segs, uids + [u]) ==
            Mapped(Recorded(c, tenant, segs, uids), segs[..|uids| + 1], u, tenant)
  {
    assert (uids + [u])[..|uids|] == uids;
  }

  lemma ChainAppend(t: Tree, segs: seq<Segment>, uids: seq<Uid>, u: Uid)
    requires Chain(t, segs, uids) && |uids| < |segs|
    requires u in t && t[u].name == segs[|uids|] && t[u].parent == Above(uids, |uids|)
    ensures Chain(t, segs, uids + [u])
  {
    forall k | 0 <= k <= |uids|
      ensures Link(t, segs, uids + [u], k)
    {
      assert k < |uids| ==> Link(t, segs, uids, k);
    }
  }

  lemma {:induction false} JoinedPrefix(segs: seq<Segment>, k: nat)
    requires GoodSegments(segs) && k < |segs|
    ensures Joined(segs[..k + 1]) == Joined(segs[..k]) + "/" + segs[k]
    ensures Segments(Joined(segs[..k + 1])) == segs[..k + 1]
  {
    assert segs[..k + 1] == segs[..k] + [segs[k]];
    JoinedAppend(segs[..k], segs[k]);
    SegmentsOfJoined(segs[..k + 1]);
  }

  lemma {:induction false} EntryAfterRecording(c: Cache, tenant: string, at: seq<Segment>, uids: seq<Uid>,
                                              q: seq<Segment>, s: string)
    requires GoodSegments(at) && |uids| <= |at| && GoodSegments(q) && ':' !in tenant && ':' !in s
    requires s != tenant || !(q <= at)
    ensures EntryOf(Recorded(c, tenant, at, uids).pathToUuid, Key(q, s)) == EntryOf(c.pathToUuid, Key(q, s))
  {
    if uids != [] {
      var k := |uids| - 1;
      EntryAfterRecording(c, tenant, at, uids[..k], q, s);
      EntryAfterMapping(Recorded(c, tenant, at, uids[..k]), at[..k + 1], uids[k], tenant, q, s);
    }
  }

  // ----- one call of the resolver -----

  predicate Verified(t: Tree, c: Cache, tenant: string, segs: seq<Segment>)
    requires segs != []
  {
    var f := Found(c, segs, tenant);
    f.Some? && f.value in t && t[f.value].name == segs[|segs| - 1]
  }

  /** What a walk answers and records. `clean` says that every remote call got through. */
  ghost predicate Walks(t: Tree, c: Cache, tenant: string, segs: seq<Segment>,
                        answer: Option<Uid>, c': Cache, uids: seq<Uid>, clean: bool)
  {
    && Chain(t, segs, uids)
    && c' == Recorded(c, tenant, segs, uids)
    && answer == (if |uids| == |segs| then Some(Above(uids, |uids|)) else None)
    && (clean && |uids| < |segs| ==> NoChildNamed(t, Above(uids, |uids|), segs[|uids|]))
  }

  /** Everything one call may do: answer the root, trust a verified entry, or drop the entry
      and walk. */
  ghost predicate Resolves(t: Tree, c: Cache, tenant: string, segs: seq<Segment>,
                           answer: Option<Uid>, c': Cache, uids: seq<Uid>, clean: bool)
  {
    if segs == [] then answer == Some(ROOT) && c' == c
    else
      || (c' == c && Verified(t, c, tenant, segs) && answer == Found(c, segs, tenant))
      || ((clean ==> !Verified(t, c, tenant, segs))
          && Walks(t, Unmapped(c, segs, tenant), tenant, segs, answer, c', uids, clean))
  }

  /** A non-root answer names a live node whose name is the last segment, whatever the
      cache held and whatever had happened to the tree. */
  lemma AnswerHasLastName(t: Tree, c: Cache, tenant: string, segs: seq<Segment>,
                          answer: Option<Uid>, c': Cache, uids: seq<Uid>, clean: bool)
    requires Resolves(t, c, tenant, segs, answer, c', uids, clean) && answer.Some? && segs != []
    ensures answer.value in t && t[answer.value].name == segs[|segs| - 1]
  {
    if Walks(t, Unmapped(c, segs, tenant), tenant, segs, answer, c', uids, clean) {
      assert Link(t, segs, uids, |segs| - 1);
    }
  }

  /** Where the cache maps the root, it maps it to the root. */
  predicate RootKept(c: Cache, tenant: string) {
    CacheOnly(c, [], tenant) == ROOT
  }

  /** After an answer, the cache-only lookup of that path gives the same uid. */
  lemma AnswerIsCached(t: Tree, c: Cache, tenant: string, segs: seq<Segment>,
                       answer: Option<Uid>, c': Cache, uids: seq<Uid>, clean: bool)
    requires GoodSegments(segs) && (segs == [] ==> RootKept(c, tenant))
    requires Resolves(t, c, tenant, segs, answer, c', uids, clean) && answer.Some?
    ensures CacheOnly(c', segs, tenant) == answer.value
  {
    if segs != [] && Walks(t, Unmapped(c, segs, tenant), tenant, segs, answer, c', uids, clean) {
      RecordedEntry(Unmapped(c, segs, tenant), tenant, segs, uids, |segs|);
      assert segs[..|segs|] == segs;
    }
  }

  /** After a refusal, no entry for that path is left under the tenant's own key. */
  lemma RefusalIsForgotten(t: Tree, c: Cache, tenant: string, segs: seq<Segment>,
                           answer: Option<Uid>, c': Cache, uids: seq<Uid>, clean: bool)
    requires GoodSegments(segs)
    requires Resolves(t, c, tenant, segs, answer, c', uids, clean) && answer.None?
    ensures Key(segs, tenant) !in c'.pathToUuid
  {
    forall k | 1 <= k <= |uids|
      ensures Key(segs, tenant) != Key(segs[..k], tenant)
    {
      if Key(segs, tenant) == Key(segs[..k], tenant) {
        SameTenantKeys(segs, segs[..k], tenant);
      }
    }
    RecordedElsewhere(Unmapped(c, segs, tenant), tenant, segs, uids, Key(segs, tenant));
  }

  /** A call touches only its own tenant's entries, and of those only the ones on its way. */
  lemma ResolvingStaysOnTheWay(t: Tree, c: Cache, tenant: string, at: seq<Segment>,
                               answer: Option<Uid>, c': Cache, uids: seq<Uid>, clean: bool)
    requires GoodSegments(at) && ':' !in tenant && Resolves(t, c, tenant, at, answer, c', uids, clean)
    ensures OnlyUnder(c, c', tenant) && OnlyOnTheWay(c, c', tenant, at, at)
  {
    if c' != c {
      forall q, s | GoodSegments(q) && ':' !in s && (s != tenant || !(q <= at))
        ensures EntryOf(c'.pathToUuid, Key(q, s)) == EntryOf(c.pathToUuid, Key(q, s))
      {
        EntryAfterUnmapping(c, at, tenant, q, s);
        EntryAfterRecording(Unmapped(c, at, tenant), tenant, at, uids, q, s);
      }
    }
  }
}
