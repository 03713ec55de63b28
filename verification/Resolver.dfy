/** The path resolver: a cache of path-to-uid mappings in front of a walk that lists one
    directory after another from the root. */
module Resolver {
  import opened Options
  import opened Strings
  import opened Paths
  import opened Tree
  import opened Core
  import opened PathCache

  /** Where the walk stands: `uids` found so far, `ahead` still to be found. */
  ghost predicate Progress(t: Tree, c: Cache, tenant: string, segs: seq<Segment>, uids: seq<Uid>, ahead: seq<Segment>,
                           current: Uid, currentPath: string, c': Cache)
  {
    && Chain(t, segs, uids)
    && ahead == segs[|uids|..]
    && current == Above(uids, |uids|)
    && currentPath == Joined(segs[..|uids|])
    && c' == Recorded(c, tenant, segs, uids)
  }

  lemma OneDeeper(t: Tree, c: Cache, tenant: string, segs: seq<Segment>, uids: seq<Uid>, ahead: seq<Segment>,
                  path: string, u: Uid)
    requires GoodSegments(segs) && Chain(t, segs, uids) && ahead == segs[|uids|..] && ahead != []
    requires u in t && t[u].name == ahead[0] && t[u].parent == Above(uids, |uids|)
    requires path == Joined(segs[..|uids|]) + "/" + ahead[0]
    ensures Progress(t, c, tenant, segs, uids + [u], ahead[1..], u, path,
                     Mapped(Recorded(c, tenant, segs, uids), Segments(path), u, tenant))
  {
    ChainAppend(t, segs, uids, u);
    RecordedAppend(c, tenant, segs, uids, u);
    JoinedPrefix(segs, |uids|);
  }

  lemma {:induction false} LastSegmentOfPath(segs: seq<Segment>)
    requires GoodSegments(segs) && segs != []
    ensures var p := PathOf(segs); p[LastIndexOf(p, '/') + 1..] == segs[|segs| - 1]
  {
    var p, above, name := PathOf(segs), Joined(segs[..|segs| - 1]), segs[|segs| - 1];
    assert p == above + "/" + name;
    assert p[|above|] == '/' && forall k :: |above| < k < |p| ==> p[k] == name[k - |above| - 1];
    assert LastIndexOf(p, '/') == |above|;
  }

  class PathResolver {
    const core: FileCore
    var pathToUuid: map<string, Uid>
    var uuidToPath: map<string, string>

    function Cache(): Cache
      reads this
    {
      PathCache.Cache(pathToUuid, uuidToPath)
    }

    constructor (core: FileCore)
      ensures this.core == core
      ensures Cache() == Mapped(Mapped(PathCache.Cache(map[], map[]), [], ROOT, "default"), [], ROOT, "")
    {
      this.core := core;
      pathToUuid, uuidToPath := map[], map[];
      new;
      RootHasNoSegments();
      CreatePathMapping("/", ROOT, "default");
      CreatePathMapping("/", ROOT, "");
    }

    method CreatePathMapping(rawPath: string, uuid: Uid, tenant: string)
      modifies this
      ensures Cache() == Mapped(old(Cache()), Segments(rawPath), uuid, tenant)
    {
      var path := NormalizePath(rawPath);
      pathToUuid := pathToUuid[CacheKey(path, tenant) := uuid];
      uuidToPath := uuidToPath[CacheKey(uuid, tenant) := path];
    }

    method RemovePathMapping(rawPath: string, tenant: string)
      modifies this
      ensures Cache() == Unmapped(old(Cache()), Segments(rawPath), tenant)
    {
      var path := NormalizePath(rawPath);
      var pathKey := CacheKey(path, tenant);
      if pathKey in pathToUuid {
        var uuidKey := CacheKey(pathToUuid[pathKey], tenant);
        pathToUuid := pathToUuid - {pathKey};
        uuidToPath := uuidToPath - {uuidKey};
      }
    }

    /** Looks a path up in the cache alone; a miss reads like the root. */
    method ResolvePathToUuid(rawPath: string, tenant: string) returns (uuid: Uid)
      ensures uuid == CacheOnly(Cache(), Segments(rawPath), tenant)
    {
      var path := NormalizePath(rawPath);
      if CacheKey(path, tenant) in pathToUuid {
        return pathToUuid[CacheKey(path, tenant)];
      }
      if tenant != "" && CacheKey(path, "") in pathToUuid {
        return pathToUuid[CacheKey(path, "")];
      }
      if tenant == "" && CacheKey(path, "default") in pathToUuid {
        return pathToUuid[CacheKey(path, "default")];
      }
      return ROOT;
    }

    /** Resolves a path: a cached uid is trusted once Stat confirms it exists under the
        last segment's name; otherwise it is evicted and the tree is walked, recording
        every depth reached. */
    method ResolvePath(rawPath: string, tenant: string) returns (answer: Option<Uid>, ghost uids: seq<Uid>)
      requires core.Valid()
      modifies this, core`faults, core`refusal
      ensures core.Valid() && core.faults >= old(core.faults)
      ensures Resolves(core.tree, old(Cache()), tenant, Segments(rawPath), answer, Cache(), uids,
                       core.faults == old(core.faults))
    {
      uids := [];
      var path := NormalizePath(rawPath);
      ghost var segs := Segments(rawPath);
      SegmentsOfPath(segs);
      NormalFormIsCanonical(path, "/");
      RootHasNoSegments();
      if path == "/" {
        return Some(ROOT), uids;
      }
      var cached := ROOT;
      var haveCached := false;
      if CacheKey(path, tenant) in pathToUuid {
        cached, haveCached := pathToUuid[CacheKey(path, tenant)], true;
      } else if tenant != "" && CacheKey(path, "") in pathToUuid {
        cached, haveCached := pathToUuid[CacheKey(path, "")], true;
      }
      if haveCached {
        var base := path[LastIndexOf(path, '/') + 1..];
        LastSegmentOfPath(segs);
        var info := core.Stat(cached);
        if info.Done? && info.value.name == base {
          return Some(cached), uids;
        }
        RemovePathMapping(path, tenant);
      }
      answer, uids := Walk(path, tenant);
    }

    /** Lists one directory and takes the first entry of that name. */
    method ListedChild(dir: Uid, name: string) returns (child: Option<Uid>)
      requires core.Valid()
      modifies core`faults, core`refusal
      ensures core.Valid() && core.faults >= old(core.faults)
      ensures child.Some? ==>
        && child.value in core.tree
        && core.tree[child.value].name == name && core.tree[child.value].parent == dir
      ensures child.None? && core.faults == old(core.faults) ==> NoChildNamed(core.tree, dir, name)
    {
      var listing := core.ListDirectory(dir);
      if listing.Refused? {
        assert forall u :: u in core.tree && core.tree[u].parent == dir ==> NodeFits(core.tree, u);
        return None;
      }
      var entries := listing.value;
      for i := 0 to |entries|
        invariant forall j :: 0 <= j < i ==> entries[j].name != name
      {
        assert Lists(core.tree, dir, entries[i]);
        if entries[i].name == name {
          return Some(entries[i].uid);
        }
      }
      forall u | u in core.tree && core.tree[u].parent == dir
        ensures core.tree[u].name != name
      {
        var j :| 0 <= j < |entries| && entries[j].uid == u;
        assert Lists(core.tree, dir, entries[j]);
      }
      return None;
    }

    /** std::getline with '/' as the delimiter: the next piece, and what is left after it. */
    static method GetLine(s: string) returns (piece: string, left: string)
      requires s != ""
      ensures |left| < |s|
      ensures Segments(s) == (if piece == "" then [] else [piece]) + Segments(left)
    {
      var n := IndexOf(s, '/');
      piece, left := s[..n], if n < |s| then s[n + 1..] else "";
      RootHasNoSegments();
      if n == |s| {
        SegmentsOfName(s);
        assert s[..n] == s;
      } else {
        assert s == piece + "/" + left;
        SegmentsAtSlash(piece, left);
        if n > 0 {
          SegmentsOfName(piece);
        }
      }
    }

    /** Walks from the root, reading the path one piece at a time. */
    method Walk(path: string, tenant: string) returns (answer: Option<Uid>, ghost uids: seq<Uid>)
      requires core.Valid()
      modifies this, core`faults, core`refusal
      ensures core.Valid() && core.faults >= old(core.faults)
      ensures Walks(core.tree, old(Cache()), tenant, Segments(path), answer, Cache(), uids,
                    core.faults == old(core.faults))
    {
      ghost var t, c, segs := core.tree, Cache(), Segments(path);
      uids := [];
      var current, currentPath := ROOT, "";
      var rest := path;
      while rest != ""
        invariant core.Valid() && core.faults >= old(core.faults) && core.tree == t
        invariant Progress(t, c, tenant, segs, uids, Segments(rest), current, currentPath, Cache())
        decreases |rest|
      {
        ghost var ahead := Segments(rest);
        var segment;
        segment, rest := GetLine(rest);
        if segment == "" {
          continue;
        }
        var child := ListedChild(current, segment);
        if child.None? {
          return None, uids;
        }
        current := child.value;
        currentPath := currentPath + "/" + segment;
        OneDeeper(t, c, tenant, segs, uids, ahead, currentPath, current);
        CreatePathMapping(currentPath, current, tenant);
        uids := uids + [current];
      }
      answer := Some(current);
    }
  }
}
