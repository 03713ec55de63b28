# A verified model of the WebDAV bridge

The bridge serves WebDAV over HTTP in front of a remote file core. The core names nodes by uid, WebDAV clients name them by path, and the bridge translates: `PathResolver` keeps a path-to-uid cache in front of a slow walk, and the request handlers change both the remote tree and that cache, in several remote calls any of which may fail. This project models that machinery in Dafny, with the tenant gate, the LDAP failover and the codecs the request path depends on, and proves what each piece promises.

Run `dafny verify dfyconfig.toml` in this directory.

## What is modelled

**The core** (`Core.FileCore`) is a class holding a finite map from uid to name, parent and kind; the root is the uid `""` and has no entry. Every remote call is a method that may fail without effect. The code cannot tell a call that did not get through from one the core refused, and neither can the model's handlers; a ghost counter `faults` counts the calls that did not get through, so that a contract can say "when every call got through". What is assumed of the core, none of whose code is in the repository:

- a uid is never used twice;
- names are not empty and hold no `/`;
- a directory is removed only when it is empty, RemoveFile removes only files (`src/webdav_server.cpp:107`);
- create, move and rename refuse a name a sibling already has (`src/webdav_server.cpp:1200`, `src/webdav_server.cpp:1391`);
- move refuses to put a node below itself;
- copy keeps the source's name even where it is taken, reports no uid, gives every copied node a fresh uid (`src/webdav_server.cpp:1179-1182`) and brings its content along;
- an upload that the core reports as stored is stored whole;
- a listing returns every child once, in any order; listing a file is refused; Stat of the root is refused.

**The cache** is two maps, as in the code. `PathCache` says as values what the resolver's methods do to them, `Resolver.PathResolver` is the class itself, and `CacheSafety` says when the cache may be believed: every entry of the tenant is *sound*, that is, its uid was handed out once and, while it lives, is the node at that path. `Belief.Follows` is the statement that a piece of a request keeps that, and touches no other tenant's entries.

**Runs** (`Runs`) consist of resolves, of *ordinary* steps and of MOVEs. Ordinary are the requests of this process that create, delete, list or copy (a COPY whose first listing, if it needed one, succeeded), what a MOVE does before its own change, creations and deletions by other programs, and requests for other tenants (`Belief.FollowingIsOrdinary`, `Belief.OutsideChangesAreOrdinary`, `Runs.OtherTenantsAreOrdinary`). The own change of every MOVE answered 201 is a step of its own, of whatever node and to wherever it leads (`Moves.IsMoveStep`). A MOVE is *tidy* when it is on track and nothing below the moved node is cached below its old path; on track is every request but one whose source ends in two slashes and whose parent is spelled like the destination's. As long as all MOVEs are tidy, the cache refines the uncached walk (`Runs.CacheRefinesWalk`). The condition is exact: where sibling names are unique, an untidy MOVE always leaves a cache that makes the resolver answer a wrong node (`Runs.MoveIsSafeExactly`, `Runs.FaithfulRunsExactly`), and so does a MOVE whose rename failed after its move went through (`Moves.HalfMovedMisleads`). Outside renames and moves are in no run; for them the weaker `PathCache.AnswerHasLastName` holds, with no assumption at all on the cache or the tree.

**The handlers** (`Handlers.Bridge`) run from the authenticated request on and return the status they answer with. Their contracts say what happened to the tree on every outcome, what a success means, which status comes when every call got through, and what became of belief in the cache. `Transfers`, `Moves`, `Copies`, `Relocation`, `CopyDiff` and `TreeRemoval` hold the facts behind MOVE, COPY and DELETE.

**The tenant gate** (`TenantGate`) is a state machine in which any number of threads take their three phases in any order; `TenantGate.Gate` is the same call undisturbed. **Failover** is the breaker and the connect routine, and the runs they make. `RoleCache`, `SessionGate`, `ClientIp`, `Addresses`, `Hosts`, `UrlCodec`, `Streaming`, `TenantRoles`, `LdapFilter` and `Etags` are each one component; `Options`, `Statuses` and `Strings` serve them all. Text is a sequence of characters, a character standing for a byte. Clocks are parameters, and so are the results of the network, of Redis and of the libraries' parsers for addresses and numbers.

## Where code and comments disagree

The model follows the code.

- `include/client_ip.h:62-63` says that without configured proxies the peer is returned; the code returns the first hop of the header when there is one.
- `include/path_resolver.h` reads an empty answer of `resolvePath` as a missing segment; a failed listing gives the same answer, which is why exactness is stated for calls that all got through.
- COPY ignores whether its first listing succeeded (`src/webdav_server.cpp:1194`). `CopyDiff.DiffNeedsTheFirstListing` proves that the diff finds the copy, whatever fresh uid it has, if and only if that listing was complete; `CopyDiff.FailedListingPicksAnother` is a concrete failure.
- MOVE of a source that ends in two slashes, such as `/a//` to `/a/b`, renames the collection itself and answers 201. `Moves.LandingPlace` proves that the moved node is at the destination if and only if the source has a last name or its parent is spelled unlike the destination's; `Moves.DoubledSlashGoesAstray` is the concrete case, and shows the resolver giving the wrong node for `/a/b` afterwards.
- Sections 9.8.5 and 9.9.4 of RFC 4918 name 403 for a source and a destination that are the same resource. The code makes no such check: MOVE or COPY of a node to itself or to one of its ancestors deletes the source with the destination and answers 404 (`src/webdav_server.cpp:1053-1086`); `Transfers.FateOfSource` proves that the source survives if and only if the destination is not on the way to it.
- A COPY under an unchanged name can leave two siblings of one name behind a 201, when the destination was taken and could not be seen. `Copies.CopyMakesTwinsExactly` gives the exact condition.
- Cache keys and role keys join tenant and path with a colon. `PathCache.ColonTenantsCanClash` and `RoleCache.ColonTenantsCanClash` show that this alone does not keep tenants apart; a tenant read from a host name never holds a colon (`Hosts.TenantIsPlain`), and then it does. It may hold a comma, and then its branch of the directory can lie inside another tenant's: `TenantRoles.BranchesMeetExactly` says when, `TenantRoles.CommaTenantsCanNest` is a case.

## Model

| member | source | states |
|---|---|---|
| `Paths.NormalizePath` | src/path_resolver.cpp:32-48 | the one-pass loop writes the canonical spelling of the path's list of non-empty segments |
| `Paths.NormalFormShape` | src/path_resolver.cpp:26-31 | a normal form starts with a slash, has no doubled one, ends in one only at the root, and is its own normal form |
| `Paths.NormalFormIsCanonical` | src/path_resolver.cpp:26-31 | two paths have the same normal form exactly when they have the same non-empty segments |
| `Paths.SegmentsOfPath` | src/path_resolver.cpp:32-48 | reading a normal form back gives the segments it was built from |
| `Paths.StripSlashKeepsSegments` | src/webdav_server.cpp:1302-1307 | dropping one trailing slash never changes the place a path names |
| `Paths.StripSlashExactly` | src/webdav_server.cpp:1302-1307 | one trailing slash goes and nothing else does; the root stays |
| `Paths.SplitExactly` | src/webdav_server.cpp:1310-1314 | a path is split at its last slash, an empty front standing for the root, and a path without one is a name below the root |
| `Paths.SplitPathSplitsSegments` | src/webdav_server.cpp:1310-1314 | for every path with a non-empty last name, the segments of the parent followed by the name are the segments of the path |
| `Paths.EmptyNameIsTheParent` | src/webdav_server.cpp:1310-1314 | where the last name is empty, the parent names the same place as the path |
| `Paths.ChildPathAppendsSegment` | src/webdav_server.cpp:927 | the path PROPFIND records a listed child under has the collection's segments with the child's name appended |
| `Paths.ChildPathIsHref` | src/webdav_server.cpp:927 | a child's href is the target's spelling, one slash and the name, without a doubled slash where the request had none, and in normal form where the target's is |
| `Core.FileCore.Create` | src/webdav_server.cpp:419-437 | Touch and MakeDirectory: one fresh uid under the given directory and name, or no effect; refused, when it got through, only for a bad parent or name |
| `Core.FileCore.ListDirectory` | src/path_resolver.cpp:110-125 | a successful listing has every child of the directory exactly once |
| `Core.FileCore.Remove` | src/webdav_server.cpp:105-109 | removes one node of the right kind without children, or nothing |
| `Core.FileCore.Move` | src/webdav_server.cpp:1366-1372 | changes one parent link, refusing a taken name and a cycle, or does nothing |
| `Core.FileCore.Rename` | src/webdav_server.cpp:1374-1380 | changes one name, refusing one a sibling has, or does nothing |
| `Core.FileCore.Copy` | src/webdav_server.cpp:1179-1182 | adds a fresh image of the whole source subtree under the parent, source name kept, or does nothing |
| `Core.FileCore.PutContent` | src/webdav_server.cpp:445-453 | the content of one uid becomes the body, or nothing changes |
| `Handlers.CopiedIsBroughtAlong` | src/webdav_server.cpp:1179-1182 | after a copy every clone has its original's content and nobody else's changed |
| `TreeEdits.AddKeepsWellFormed` | src/webdav_server.cpp:419-437 | adding a fresh node under a directory keeps every node connected to the root |
| `TreeEdits.RemoveKeepsWellFormed` | src/webdav_server.cpp:105-109 | removing a childless node keeps every other node connected to the root |
| `TreeEdits.ReplaceKeepsWellFormed` | src/webdav_server.cpp:1342-1382 | moving or renaming a node outside its own subtree keeps every node connected to the root |
| `TreeEdits.ReplaceKeepsSubtree` | src/webdav_server.cpp:1342-1382 | moving or renaming a node changes neither which nodes are below it nor the rest of the tree |
| `TreeEdits.CloneIsSubtree` | src/webdav_server.cpp:1179-1182 | a clone's domain is exactly the subtree copied |
| `TreeEdits.CopyKeepsWellFormed` | src/webdav_server.cpp:1179-1182 | adding a copy keeps every node connected to the root, even when the copy goes below its own source |
| `PathCache.KeysAreApart` | src/path_resolver.cpp:253-255 | for tenants without a colon, two cache keys are equal exactly when tenants and segments are |
| `PathCache.ColonTenantsCanClash` | src/path_resolver.cpp:253-255 | with a colon in a tenant two different pairs share a key |
| `PathCache.RecordedExactly` | src/path_resolver.cpp:127-136 | a walk leaves, for every depth reached, the first segments mapped to the uid reached there, and every other path entry as it was |
| `PathCache.AnswerHasLastName` | src/path_resolver.cpp:77-99 | whatever the cache held and whoever changed the tree, a non-root answer is a live node named like the path's last segment |
| `PathCache.AnswerIsCached` | src/path_resolver.cpp:147-172 | after an answer the cache-only lookup of that path gives the same uid; for the root where the cache maps the root to itself |
| `CacheSafety.RootIsKept` | src/path_resolver.cpp:51-57 | a cache that may be believed maps the root to itself, whatever its entries |
| `PathCache.RefusalIsForgotten` | src/path_resolver.cpp:137-141 | after a refusal no entry for the path is left under the request's own tenant |
| `PathCache.ResolvingStaysOnTheWay` | src/path_resolver.cpp:98-136 | one resolve changes no entry of another tenant, and of its own tenant only entries at prefixes of its path |
| `Resolver.PathResolver.constructor` | src/path_resolver.cpp:51-57 | the cache starts with the root alone, for the default and the empty tenant |
| `Resolver.PathResolver.CreatePathMapping` | src/path_resolver.cpp:200-210 | both maps gain exactly the entry of the normalised path |
| `Resolver.PathResolver.RemovePathMapping` | src/path_resolver.cpp:212-227 | the path's entry and the reverse entry of the uid it held are gone, nothing else changed |
| `Resolver.PathResolver.ResolvePathToUuid` | src/path_resolver.cpp:147-172 | the cache-only lookup with its two fallbacks, the root uid on a miss |
| `Resolver.PathResolver.ListedChild` | src/path_resolver.cpp:110-141 | a child found has that name and parent; none found, when the call got through, means there is none |
| `Resolver.PathResolver.Walk` | src/path_resolver.cpp:101-144 | follows a chain of parent links along the segments, recording every depth; stops early, when all calls got through, only where no child has the next name |
| `Resolver.PathResolver.ResolvePath` | src/path_resolver.cpp:59-145 | the root at once, else a cached uid confirmed by Stat, else eviction and a walk; a valid entry is never dropped when the calls got through |
| `CacheSafety.WalkFindsThePath` | src/path_resolver.cpp:101-144 | with unique sibling names the top-down walk finds a node exactly when climbing from that node spells the path |
| `CacheSafety.AnswerIsAtPath` | src/path_resolver.cpp:77-99 | from a cache that may be believed, an answer is the node at that path, whichever calls failed |
| `CacheSafety.CleanAnswerIsTheWalk` | src/path_resolver.cpp:59-145 | when all calls got through, the answer is the uncached walk's, absence included |
| `Runs.StepKeepsFaithful` | src/webdav_server.cpp:1400-1402 | every step of a run but an untidy MOVE leaves a cache that may be believed about every path |
| `Runs.FreshCacheIsFaithful` | src/path_resolver.cpp:51-57 | a fresh resolver's cache may be believed over any tree |
| `Runs.RunIsFaithful` | src/path_resolver.cpp:59-145 | belief in the cache is an invariant of every run whose MOVEs are tidy |
| `Runs.CacheRefinesWalk` | src/path_resolver.cpp:59-145 | in every run from a fresh resolver whose MOVEs so far were tidy, an answer is the node at the path even when calls fail, and equals the uncached walk's when they all got through |
| `CacheSafety.FaithfulNeverMisleads` | src/path_resolver.cpp:77-99 | from a cache that may be believed about every path, no clean resolve answers a wrong node |
| `Runs.MoveIsSafeExactly` | src/webdav_server.cpp:1342-1402 | where sibling names are unique, after the change of a MOVE answered 201 the cache may be believed about every path if and only if the MOVE was tidy; otherwise the resolver answers a wrong node from then on |
| `Runs.ChildlessMoveIsSafeExactly` | src/webdav_server.cpp:1342-1402 | for a node without children, if and only if the request was on track, whether names are unique or not |
| `Runs.StepIsFaithfulExactly` | src/path_resolver.cpp:59-145 | a step of a run leads from a believable cache to a believable one if and only if it is no untidy MOVE |
| `Runs.OffTrackMisleads` | src/webdav_server.cpp:1400-1402 | an off-track MOVE records the node at a path it is not at, and the resolver then answers it there |
| `Runs.EntryBelowMisleads` | src/path_resolver.cpp:82-84 | after an on-track MOVE to another path, an entry left below the old path makes the resolver answer a moved node there |
| `Runs.OnTrackKeepsBelieved` | src/webdav_server.cpp:1400-1402 | on track, a MOVE of any node keeps belief about every path but the ones cached below the old place |
| `Runs.FaithfulRunsExactly` | src/path_resolver.cpp:59-145 | a run without twin names is believable throughout if and only if all its MOVEs are tidy |
| `Runs.OtherTenantsAreOrdinary` | src/path_resolver.cpp:253-255 | a request that changes only another tenant's entries is an ordinary step of this tenant's run |
| `Belief.FollowingIsOrdinary` | src/webdav_server.cpp:601-705 | what the contracts of PUT, MKCOL, DELETE, PROPFIND and COPY establish, and that of MOVE up to its own change, is a step of a run |
| `Belief.OutsideChangesAreOrdinary` | src/path_resolver.cpp:78-84 | nodes created and deleted by other programs are a step of a run |
| `TreeRemoval.RemoveTreeRecursive` | src/webdav_server.cpp:110-138 | terminates on every tree; removes, children before parents, the whole subtree on success and only part of it, never its top, on failure; fails only through a call that did not get through |
| `TreeRemoval.RemoveEntry` | src/webdav_server.cpp:120-130 | removes one listed child and all below it, or part of that |
| `TreeRemoval.WholeSubtreeGone` | src/webdav_server.cpp:132-137 | once the directory itself could go, exactly its subtree is gone |
| `Tree.AncestorsSurvive` | src/webdav_server.cpp:110-138 | after any part of a removal, a live node is below the same live ancestors as before |
| `Hosts.TenantIsPlain` | src/utils.cpp:121-162 | a tenant read from a host is not empty and holds no colon, dot or hyphen |
| `Hosts.SuffixAndPortDoNotMatter` | src/utils.cpp:121-162 | a port and an interface suffix on the first label never change the tenant |
| `Hosts.DefaultTenantExactly` | src/utils.cpp:121-162 | the tenant is the default one exactly for a host without a dot, or whose first label up to its first hyphen is empty, `www`, `default` or all digits; for any other host it is that part of the label |
| `Relocation.WalksAfterMove` | src/webdav_server.cpp:1342-1382 | after a move or rename the walk to the new path finds the node and the walk to the old one finds nothing |
| `Relocation.OverwriteSparesSource` | src/webdav_server.cpp:1053-1086 | clearing the destination takes nothing from the subtree that is then moved there |
| `Runs.CarriedAlong` | src/webdav_server.cpp:1342-1382 | every node below a moved one is found at the new path with the rest of its old one |
| `Moves.IsMoveStep` | src/webdav_server.cpp:1342-1402 | the change of every MOVE answered 201, on track or not, is a move step of a run |
| `CopyDiff.FirstNew` | src/webdav_server.cpp:1220-1226 | the least uid in string order that is in the second listing and not in the first, or none when there is none |
| `CopyDiff.LexAtDifference` | src/webdav_server.cpp:1223-1226 | the order the diff goes by is that of the first differing character |
| `CopyDiff.CompleteListingFindsTheCopy` | src/webdav_server.cpp:1192-1226 | with a complete first listing the diff is exactly the new child |
| `CopyDiff.DiffNeedsTheFirstListing` | src/webdav_server.cpp:1192-1226 | the diff finds the copy, for every fresh uid it may have, if and only if the first listing held every child |
| `CopyDiff.FailedListingPicksAnother` | src/webdav_server.cpp:1194 | a failed first listing and a child sorting before the copy: the child is taken for the copy |
| `CopyDiff.CopiedAddsOneChild` | src/webdav_server.cpp:1179-1249 | a copy under its final name adds exactly one child to the destination, changes no old node, and leaves a well-formed tree |
| `CopyDiff.CopiedIsUniqueExactly` | src/webdav_server.cpp:1179-1182 | a copy, into its own source even, leaves two siblings of one name exactly when its own name was taken beside it |
| `Transfers.ClearingSparesSource` | src/webdav_server.cpp:1053-1086 | clearing the destination spares a node exactly when the destination is not on the way to it |
| `Transfers.FateOfSource` | src/webdav_server.cpp:1053-1086 | when every call got through, the source of a MOVE or COPY survives if and only if the destination's segments are no prefix of the source's, and otherwise the answer is 404 |
| `Moves.LandingPlace` | src/webdav_server.cpp:1316-1382 | the moved node is at the destination path if and only if the source has a last name or its parent is spelled unlike the destination's |
| `Moves.DoubledSlashGoesAstray` | src/webdav_server.cpp:1344-1353 | the concrete request where it is not: `/a//` to `/a/b` leaves the node at `/b`, and a resolve of `/a/b` answers it |
| `Moves.MoveFailed` | src/webdav_server.cpp:1384-1398 | short of 201 a MOVE loses only nodes that were at the destination and changes at most the source's parent; belief is kept if it did not, and the cache misleads if it did |
| `Moves.HalfMovedMisleads` | src/webdav_server.cpp:1370-1398 | a MOVE whose rename failed after its move leaves the old path's entry behind, and the resolver then answers a node that is elsewhere |
| `Moves.MoveSucceeded` | src/webdav_server.cpp:1342-1409 | a 201 means arrival with the whole subtree and walks that agree, exactly for requests on track |
| `Moves.MoveIsSafe` | src/webdav_server.cpp:1400-1402 | a MOVE answered 201 keeps belief about every path not strictly below the old place, and about all paths if and only if it was tidy, judged by the world before the request; for a childless node, if and only if it was on track |
| `Moves.MoveFinished` | src/webdav_server.cpp:1328-1402 | all that a MOVE answered 201 promises about tree, cache and runs |
| `Copies.CopyFinished` | src/webdav_server.cpp:1192-1256 | a 201 means one more child under the destination's name mirroring the source's subtree; on every outcome no old node outside the overwritten target changes |
| `Copies.CopyMakesTwinsExactly` | src/webdav_server.cpp:1179-1249 | sibling names stay unique if and only if the destination's name was free once it was cleared, always so for a renamed copy, and then the walk to the destination finds the copy |
| `Copies.ClearedNameIsFree` | src/webdav_server.cpp:1053-1086 | it is free once everything at the destination is cleared |
| `Strings.LoweredAlikeExactly` | src/webdav_server.cpp:1029-1032 | two strings are lowered alike exactly when they differ in letter case only |
| `Strings.LoweredIsLower` | src/webdav_server.cpp:1029-1032 | lowering leaves no capital and changes nothing but letter case |
| `Handlers.SameAuthorityExactly` | src/webdav_server.cpp:1034-1047 | a Destination is accepted exactly if it names no host or the request's, in any case, whatever the request's port |
| `Handlers.OverwriteIsRuled` | src/webdav_server.cpp:1049-1086 | where the destination exists and no call fails, a header starting with F or f answers 412 and touches nothing, and any other has the whole destination removed |
| `Handlers.DeleteErrorExactly` | src/webdav_server.cpp:1078-1084 | a refused deletion answers 403 exactly if the core's text holds `permission`, else 500 |
| `Handlers.TransferErrorExactly` | src/webdav_server.cpp:1196-1202 | a refused transfer answers 403, 404 or 409 exactly for the texts the code looks for, in that order, else 500 |
| `Handlers.Bridge.constructor` | src/path_resolver.cpp:51-57 | a bridge starts with the fresh cache that runs start from |
| `Handlers.Bridge.Resolve` | src/path_resolver.cpp:59-145 | one resolve keeps belief about every path, is right about its own, and is the uncached walk when all calls got through |
| `Handlers.Bridge.Put` | src/webdav_server.cpp:342-501 | at most one fresh file under the last name is created; on 201 or 204 the file is at the path, recorded there, and its content is the body, and nobody's content changes otherwise; 409, 204, 201 or 500 as the walk decides when all calls got through |
| `Handlers.Bridge.OpenForPut` | src/webdav_server.cpp:376-437 | an existing node is taken as it is, otherwise one file is created under the resolved parent |
| `Handlers.Bridge.MakeUnder` | src/webdav_server.cpp:556-589 | one fresh directory below the resolved parent, 409 without a parent and 500 where the core refuses |
| `Handlers.Bridge.Mkcol` | src/webdav_server.cpp:503-599 | 201 exactly when the parent exists and the name is free, and then one fresh directory stands at the path and is recorded; otherwise nothing changes |
| `Handlers.Bridge.RemoveTarget` | src/webdav_server.cpp:1066-1077 | removes exactly the target's subtree, or on failure a part without the target |
| `Handlers.Bridge.RemoveAndForget` | src/webdav_server.cpp:1068-1085 | the same, with the path's entry gone on success |
| `Handlers.Bridge.Delete` | src/webdav_server.cpp:601-705 | 204 means exactly the subtree at the path is gone and its entry too; on any other status the target still stands; 404 exactly for the root and absent paths when all calls got through; a refused removal of a directory answers by the core's text, of a file 500 |
| `Handlers.Bridge.Children` | src/webdav_server.cpp:707-970 | the entries below a PROPFIND target are all its children, or none for a file, depth 0 or a failed listing |
| `Handlers.Bridge.RecordEntry` | src/webdav_server.cpp:963-966 | one listed child is recorded under its own path without disturbing the children recorded before |
| `Handlers.Bridge.RecordChildren` | src/webdav_server.cpp:963-966 | afterwards every listed child is in the cache under its own path, and the hrefs name the children in order |
| `Handlers.Bridge.ListAndRecord` | src/webdav_server.cpp:774-966 | the entries of an answer are recorded and spelled, the target's own href first |
| `Handlers.Bridge.Propfind` | src/webdav_server.cpp:707-970 | the directory listed is the one at the path even when calls failed; the response has the target's href and then one for every child, spelled as the target followed by one slash and the name, all of them recorded; 404 exactly for absent paths when all calls got through; the tree is untouched |
| `Handlers.Bridge.ClearTarget` | src/webdav_server.cpp:1061-1085 | an existing destination goes with all below it, or is refused as the core's text says |
| `Handlers.Bridge.PrepareDestination` | src/webdav_server.cpp:1016-1088 | 502 exactly for another host; a header starting with F or f never removes anything; otherwise only what stands at the destination goes, and all of it when the request goes on |
| `Handlers.Bridge.FindBoth` | src/webdav_server.cpp:1159-1177 | 404 without a source, 409 without a destination parent, else the nodes at both paths |
| `Handlers.Bridge.Approach` | src/webdav_server.cpp:1156-1177 | clearing and finding together: what may be lost, where both ends are, which entries may change, and the refusal when all calls got through |
| `Handlers.Bridge.Relocate` | src/webdav_server.cpp:1342-1382 | success exactly when the names are free and no cycle arises, if the calls got through; failure leaves the node untouched or moved under its old name |
| `Handlers.Bridge.MoveFound` | src/webdav_server.cpp:1342-1402 | the relocation and then exactly one entry moved, or no entry changed |
| `Handlers.Bridge.TryMove` | src/webdav_server.cpp:1327-1409 | the world after each stage of a MOVE, the exact cache it leaves, and the status it answers with when all calls got through |
| `Handlers.Bridge.MoveTo` | src/webdav_server.cpp:1327-1409 | the promises of MOVE past its check of the destination |
| `Handlers.Bridge.Move` | src/webdav_server.cpp:1258-1409 | on every outcome no uid is created, no content changes, losses lie within what stood at the destination, none where the Overwrite header starts with F or f; 502 exactly for another host; a 201 means the source uid with its whole subtree is at the destination, exactly for requests on track, the old path is empty and the cache entry went with it; afterwards the cache may be believed exactly if the request was tidy and not half-done; when all calls got through, the header decides as it should, the source survives exactly if the destination is not on the way to it, and a refusal answers as the core's text says |
| `Handlers.Bridge.ListUids` | src/webdav_server.cpp:1183-1191 | the uids of exactly the children, or the empty set with a failed listing |
| `Handlers.Bridge.FindCopy` | src/webdav_server.cpp:1221-1226 | the first uid in the second listing that the snapshot did not have |
| `Handlers.Bridge.RenameCopy` | src/webdav_server.cpp:1220-1247 | one child is renamed, the copy itself when the snapshot was complete, or nothing is; success exactly when the name is good and free, if the calls got through |
| `Handlers.Bridge.CopyAndRename` | src/webdav_server.cpp:1192-1249 | the copy alone is renamed when the first listing succeeded; success exactly when the core allows copy and name, if the calls got through |
| `Handlers.Bridge.CopyFound` | src/webdav_server.cpp:1192-1249 | the same, and the copy's entry recorded exactly if it was renamed |
| `Handlers.Bridge.TryCopy` | src/webdav_server.cpp:1156-1256 | the world after each stage of a COPY, the exact cache it leaves, and the status it answers with when all calls got through |
| `Handlers.Bridge.Copy` | src/webdav_server.cpp:1090-1256 | a 201 after a complete first listing adds one child with the destination's name mirroring the source's subtree, contents included; sibling names stay unique exactly if that name was free once the destination was cleared, always when every call got through; on every outcome no node outside the overwritten target is lost, none where the Overwrite header starts with F or f, and, unless that listing failed, none changes name or parent; 502 exactly for another host; when all calls got through, the header decides as it should, the source survives exactly if the destination is not on the way to it, and a refusal answers as the core's text says |
| `TenantGate.OnlyLiveAdmits` | include/tenant_state_policy.h:67-93 | a verdict admits exactly for a successful lookup that says live |
| `TenantGate.Gate.TenantAdmits` | src/webdav_server.cpp:1599-1636 | one undisturbed call: never for the empty tenant, an unexpired verdict reused, a new one kept for its lifetime |
| `TenantGate.UndisturbedCall` | src/webdav_server.cpp:1599-1636 | the phases of the state machine taken in a row are the undisturbed call |
| `TenantGate.StepKeepsInv` | src/webdav_server.cpp:1599-1636 | every step of any thread keeps every cached verdict backed by a lookup begun within its lifetime |
| `TenantGate.RunKeepsInv` | src/webdav_server.cpp:1599-1636 | so does every interleaving |
| `TenantGate.AdmissionIsRecentlyLive` | src/webdav_server.cpp:1599-1636 | in every interleaving an admission rests on a live lookup of that tenant begun in the same call or less than 60 seconds before it |
| `TenantGate.CachedRefusalIsRecent` | src/webdav_server.cpp:1599-1636 | a refusal from the cache rests on a refusing lookup begun less than 10 seconds before the call |
| `TenantGate.CacheHoldsLastWrite` | src/webdav_server.cpp:1599-1636 | in every interleaving the cache holds, for each tenant, the verdict last written, until 60 or 10 seconds after the clock reading of the call that wrote it |
| `TenantGate.FreshVerdictIsUsed` | src/webdav_server.cpp:1599-1636 | in every interleaving a call whose clock reading is before that takes the verdict and makes no lookup, and any other has to make one |
| `Failover.CircuitBreaker.Trip` | include/circuit_breaker.h:42-43 | degraded until exactly one cooldown later |
| `Failover.CircuitBreaker.Reset` | include/circuit_breaker.h:45-46 | not degraded at any time of the clock |
| `Failover.Authenticator.ConnectToLdap` | src/ldap_authenticator.cpp:244-262 | one connect is a step of the failover state machine: to the master exactly if it is touched and accepts, else to the replica exactly if there is one and it accepts; the breaker trips from the end of a failed probe, resets on success and is left alone otherwise |
| `Failover.FailsExactly` | src/ldap_authenticator.cpp:244-262 | a connect fails exactly when the master is left alone or refuses and there is no replica or it refuses |
| `Failover.ReplicaCarriesTheRun` | src/ldap_authenticator.cpp:244-262 | in every run a connect never fails while the replica accepts, and inside a cooldown it is to the replica |
| `Failover.QuietUntilExpiry` | include/circuit_breaker.h:37-46 | a failed probe's cooldown stands until some connect at or after its expiry |
| `Failover.MasterIsLeftAlone` | src/ldap_authenticator.cpp:244-262 | no connect inside a cooldown touches the master, and the first one at or after its expiry does |
| `Failover.ProbeRateIsBounded` | src/ldap_authenticator.cpp:244-262 | in every run, any k failed probes of the master span at least k - 1 cooldowns |
| `Failover.TimesIsProduct` | include/circuit_breaker.h:37-46 | cooldowns in a row add up to the product |
| `RoleCache.EncodeRoles` | src/webdav_hardening.cpp:280-296 | the loop joins the roles with newlines |
| `RoleCache.DecodeRoles` | src/webdav_hardening.cpp:250-278 | the loop finds exactly the non-empty pieces between newlines |
| `RoleCache.RoundTripExactly` | src/webdav_hardening.cpp:250-296 | a list comes back from the codec if and only if its roles are non-empty and free of newlines |
| `RoleCache.KeysAreInjective` | src/webdav_hardening.cpp:250-296 | for tenants without a colon, keys are equal exactly when tenant and uid are |
| `RoleCache.ColonTenantsCanClash` | src/webdav_hardening.cpp:250-296 | with a colon in a tenant two different pairs share a key |
| `RoleCache.RoleStore.GetCachedRoles` | src/webdav_hardening.cpp:250-278 | a miss without a uid, a store or an unexpired entry, else the decoded entry |
| `RoleCache.RoleStore.PutCachedRoles` | src/webdav_hardening.cpp:280-296 | exactly the pair's own entry is replaced, if there are a uid, a lifetime and a store |
| `RoleCache.RoleStore.RolesOf` | src/webdav_server.cpp:1720-1728 | a hit is used as it is; otherwise the directory's answer is used and kept |
| `RoleCache.StoreHoldsLast` | src/webdav_hardening.cpp:250-296 | after any writes for any hosts and users, a pair's entry is the last one written for that pair |
| `RoleCache.HitIsLastStored` | src/webdav_hardening.cpp:250-296 | in every run a lookup gives precisely the list last stored for that tenant and user while it has not expired, and nothing otherwise |
| `RoleCache.NothingIsStored` | src/webdav_hardening.cpp:280-282 | without a lifetime, or for no uid, nothing is ever stored |
| `UrlCodec.UrlEncode` | src/utils.cpp:68-86 | the loop encodes byte by byte |
| `UrlCodec.UrlDecode` | src/utils.cpp:51-66 | the loop decodes triples, plus signs and plain characters, malformed triples as strtol reads them |
| `UrlCodec.UnreservedExactly` | src/utils.cpp:75-76 | what is left as it is are the 66 unreserved characters of RFC 3986, section 2.3 |
| `UrlCodec.EncodedByte` | src/utils.cpp:73-83 | an unreserved character stands for itself, any other for a triple |
| `UrlCodec.TripleDenotes` | src/utils.cpp:79-81 | the digits of the triple denote the byte |
| `UrlCodec.HexValueExactly` | src/utils.cpp:56 | a hexadecimal digit of either case is worth its place among the digits, and nothing else is one |
| `UrlCodec.DecodedTriple` | src/utils.cpp:54-58 | a triple of two digits in either case is read as their byte |
| `UrlCodec.DecodedMalformed` | src/utils.cpp:54-58 | what any other triple is read as |
| `UrlCodec.DecodedCharacter` | src/utils.cpp:59-63 | a plus sign is read as a space, any other character as itself, a percent sign too near the end included |
| `UrlCodec.EncodeRoundTrip` | src/utils.cpp:51-86 | decoding undoes encoding for every byte string |
| `UrlCodec.EncodeIsWellFormed` | src/utils.cpp:68-86 | an encoding holds only unreserved characters and well-formed uppercase triples |
| `UrlCodec.EncodeIsInjective` | src/utils.cpp:68-86 | two byte strings never share an encoding |
| `Addresses.IpInAnyCidr` | include/client_ip.h:57-60 | true exactly when the address is in one of the blocks |
| `Addresses.InAnyExactly` | include/client_ip.h:57-60 | a list holds what its first block or the others hold, an empty one nothing |
| `Addresses.BlockMembership` | include/client_ip.h:37-50 | an address is in a block exactly if both can be read, the families agree, the prefix fits and the numbers are equal once divided by 2 to the number of bits after the prefix |
| `Addresses.SingleAddress` | include/client_ip.h:37-41 | a block without a slash is that one address |
| `Addresses.ShorterPrefixAgrees` | src/webdav_hardening.cpp:52-64 | addresses that agree on a prefix agree on every shorter one |
| `ClientIp.TrimExactly` | include/client_ip.h:66-71 | trimming takes the blanks and tabs from both ends, all of them, and nothing else |
| `ClientIp.SplitHops` | include/client_ip.h:85-91 | the loop yields the trimmed comma-separated hops, the last one included |
| `ClientIp.HopsAtComma` | include/client_ip.h:85-91 | a comma separates hops, and text without one is a single trimmed hop |
| `ClientIp.ResolveClientIp` | include/client_ip.h:64-96 | without trusted proxies the trimmed text before the first comma, or the peer for an empty header; an untrusted peer whatever the header says; behind a trusted peer the hop that is non-empty and in no trusted block with none such to its right, or the peer when there is none |
| `ClientIp.RightmostIsRightmost` | include/client_ip.h:92-95 | the hop chosen is non-empty and untrusted with none such to its right; none chosen means there is none |
| `ClientIp.FirstHop` | include/client_ip.h:66-81 | the text before the first comma, trimmed, is the first hop |
| `ClientIp.PrependingChangesNothing` | include/client_ip.h:64-96 | behind a trusted peer, text put in front of a header with an untrusted hop never changes the result |
| `SessionGate.MatchingIsEquivalence` | src/webdav_hardening.cpp:52-64 | for each prefix length matching is an equivalence over all strings, unreadable ones included |
| `SessionGate.ShorterPrefixMatches` | src/webdav_hardening.cpp:52-64 | a match on a longer prefix is a match on every shorter one |
| `SessionGate.MatchesExactly` | src/webdav_hardening.cpp:52-64 | a match is the same IPv4 number, IPv6 numbers equal once divided by 2 to the number of bits after the prefix, or the same text where one cannot be read; the families never mix |
| `SessionGate.MemberAddress` | src/webdav_hardening.cpp:209-248 | a session member is compared by the address after its last bar |
| `SessionGate.Gate.HasLiveSession` | src/webdav_hardening.cpp:209-248 | purges the expired members as far as the store answers, then finds a live session exactly when one is left that matches |
| `SessionGate.Gate.Decision` | src/webdav_hardening.cpp:167-183 | trusted network first, then the fail-open setting where the store fails at the purge or at the listing, then a live session; only the asked key is purged |
| `SessionGate.EarlierPurgesDoNotMatter` | src/webdav_hardening.cpp:209-248 | any number of earlier purges leave every later decision the same |
| `SessionGate.SessionMeansUnexpired` | src/webdav_hardening.cpp:209-248 | over non-negative scores a client outside the trusted networks is let in exactly when some matching session expires later than now |
| `SessionGate.AdmittedByAddressExactly` | src/webdav_hardening.cpp:167-248 | by address, a client outside the trusted networks is let in exactly with an unexpired session whose stored address, after its last bar, matches in that sense |
| `SessionGate.AdmittedBySessionExactly` | src/webdav_hardening.cpp:167-248 | without the address, exactly with any unexpired session |
| `SessionGate.WithoutSessions` | src/webdav_hardening.cpp:167-183 | a trusted network is let in whatever the store says; anyone else, while the store does not answer to the end, exactly if failing open is configured |
| `SessionGate.SessionKeysAreApart` | src/webdav_hardening.cpp:213 | for tenants without a colon, session keys are equal exactly when tenant and uid are |
| `Streaming.StreamUpload` | src/grpc_client_wrapper.cpp:165-202 | uid and credentials on the first message only; at least one message unless a write fails, even for an empty body; the messages concatenate to a prefix of the body, all of it when every write succeeds; no message is larger than a chunk; success means a stream without error and a core that accepted |
| `Streaming.NextChunk` | src/webdav_server.cpp:442-453 | a read takes at most a chunk off the front of the body, and nothing only at its end |
| `Streaming.OnChunk` | src/webdav_server.cpp:294-316 | the response head goes out before the first data and never again |
| `Streaming.Download` | src/grpc_client_wrapper.cpp:204-229 | exactly one head; the client receives a prefix of the core's data in order, all of it when its own connection holds; an error status only when no byte went out, and then exactly for a failed stream |
| `LdapFilter.EscapeFilterValue` | src/ldap_authenticator.cpp:58-72 | the loop escapes character by character |
| `LdapFilter.EscapeRoundTrip` | src/ldap_authenticator.cpp:58-72 | decoding by section 3 of RFC 4515 gives the original for every string |
| `LdapFilter.EscapedIsInert` | src/ldap_authenticator.cpp:58-72 | an escaped value holds no `*`, `(`, `)` or NUL |
| `LdapFilter.FilterMeansTheUser` | src/ldap_authenticator.cpp:426 | whatever a user's name holds, the group filter built from it is read as asking for exactly that user |
| `TenantRoles.StripDeploymentRoles` | include/tenant_role_policy.h:49-57 | the loop keeps the other roles in order |
| `TenantRoles.StripKeepsTheRest` | include/tenant_role_policy.h:49-57 | stripping drops exactly the roles that start with `system_` |
| `TenantRoles.NothingToStrip` | include/tenant_role_policy.h:49-57 | a list without such roles keeps its contents and order |
| `TenantRoles.FinishTenantRoles` | src/ldap_authenticator.cpp:408-417 | maps administrators to tenant_admin, then strips |
| `TenantRoles.FinishedRoles` | src/ldap_authenticator.cpp:408-417 | what is in a finished list: the non-deployment roles, and tenant_admin exactly for administrators and tenant admins, without new duplicates |
| `TenantRoles.FinishedIsIdempotent` | src/ldap_authenticator.cpp:408-417 | finishing twice changes nothing, for every list |
| `TenantRoles.Collect` | src/ldap_authenticator.cpp:447-461 | the lowercased first names of the found groups, without empty ones and duplicates |
| `TenantRoles.ScopedRoles` | src/ldap_authenticator.cpp:419-471 | for every directory: no duplicates; exactly the lower-case, non-empty names without `system_` in front that a group of the user under the tenant's own branch has as its first name in any case, and tenant_admin where `administrators` is such a name; no role at all after a failed search |
| `TenantRoles.CapitalAdministrators` | src/ldap_authenticator.cpp:453-454 | a group called `Administrators` is held as `administrators` |
| `TenantRoles.BranchesMeetExactly` | src/ldap_authenticator.cpp:391-395 | a group can lie under two tenants' branches if and only if the tenants are equal or one's name ends in a comma and the other's branch |
| `TenantRoles.BranchesAreApart` | src/ldap_authenticator.cpp:391-395 | so no group lies under the branches of two tenants without commas |
| `TenantRoles.CommaTenantsCanNest` | src/utils.cpp:121-162 | host names such as `x,ou=acme.example.com` yield a tenant whose branch lies inside that of `acme` |
| `Etags.EtagsAreExact` | src/webdav_server.cpp:80-84 | two ETags are equal exactly when modification time and size are, over all 64-bit values |
| `Etags.EtagIsQuoted` | src/webdav_server.cpp:80-84 | an ETag is one quoted string |
| `Etags.EtagDenotes` | src/webdav_server.cpp:80-84 | its two numbers read in base 16 are the two's-complement values of time and size |
| `Etags.HexIsTidy` | src/webdav_server.cpp:80-84 | numbers are printed in lowercase digits without leading zeros |

## Left out

- Remote calls that throw: a thrown call is modelled as a failed one. In COPY's two listings a throw ends the request where a failed reply goes on; in the resolver and the deletion both end the same way. The status of a request ended by a throw is not modelled.
- Authentication, the tenant gate and the session gate run before a handler; the handlers start from a request that passed them, and a request refused there touches neither tree nor cache.
- Interleaving of two requests of one process inside the resolver or a handler: `mutex_` protects each map access, a request as a whole is not atomic. Handlers are modelled one after another; only the tenant gate is modelled thread by thread.
- One tenant's tree is modelled at a time. Tenants share the cache, and `Runs.OtherTenantsAreOrdinary` covers the requests for the others.
- A COPY that renames after its first listing failed is in no run: it may rename an old child, and entries below that child are then wrong.
- Outside renames and moves are in no run: a hit is checked only for existence and name, as `src/path_resolver.cpp:82-84` says, so the cache is not exact after them. `PathCache.AnswerHasLastName` is what holds there.
- Handlers.Bridge.Propfind: the statuses that differ only in their XML body, a degraded listing and an unreachable core among them, are one status; the order of the listing stands for the order of the XML.
- Handlers.Bridge.Put: the validators sent back are not modelled; whether a node that is no file accepts content is left open.
- Core.FileCore.PutContent: versions of a file are not kept apart; a removed node's content is not represented as gone.
- Streaming.StreamUpload: what the core makes of the messages is assumed, not modelled: PUT takes an upload reported stored for one stored whole.
- Streaming.Download: an exception thrown out of `response.send()` itself is not modelled; one out of a write is.
- TenantRoles.ScopedRoles: the branch for a caller without a tenant (`src/ldap_authenticator.cpp:473-859`) is not modelled, so a tenant and a tenant base are required; names are compared as text, without the directory's own matching rules.
- RoleCache.RoleStore.RolesOf: verifying the credential, which comes first, is not part of this model, nor is a build without Redis.
- SessionGate.IpMatches: IPv6 scope ids are not modelled; an address is a family and a number.
- SessionGate.Gate.Decision: a value handed to the Redis client is cut at its first NUL; the model has no such values. Keys are not shown to be apart for tenants with a colon.
- Failover.Authenticator.ConnectToLdap: the clock is a real number, without floating-point rounding.
- `resolveUUIDToPath` and the reverse map as an inverse: two paths may map to one uid and removing either erases the reverse entry. The reverse map is modelled as state, without a claim that it inverts the other.
- `getParentUUID` and `pathExists`: short readers of the cache with no caller in the handlers.
- OPTIONS, PROPPATCH, LOCK, UNLOCK, date formatting, XML escaping, logging, metrics and monitoring: input, output and formatting without deep state.
- `verifyCredential`, digest helpers, environment parsing, `splitString` for configuration, `main` and the generated stubs: network, library or start-up work.
