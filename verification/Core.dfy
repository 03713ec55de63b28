/** The remote file core behind the bridge. Each remote call may fail without effect, for
    a reason of its own or because the call did not get through; the bridge cannot tell
    which, and `faults` counts the second kind so that contracts can speak of it. `refusal` is
    what the last refused call was refused with. */
module Core {
  import opened Paths
  import opened Tree
  import opened TreeEdits

  datatype Reply<+T> = Done(value: T) | Refused(error: string)
  datatype Entry = Entry(name: string, uid: Uid, kind: Kind)

  /** A refused call, and what it was refused with. */
  datatype Call = OnStat | OnList | OnCreate | OnPut | OnRemove | OnRename | OnMove | OnCopy
  datatype Refusal = Refusal(call: Call, error: string)

  predicate Injective(clone: map<Uid, Uid>) {
    forall v, w {:trigger clone[v], clone[w]} :: v in clone && w in clone && clone[v] == clone[w] ==> v == w
  }

  /** The contents of the copies. */
  function Brought(contents: map<Uid, string>, clone: map<Uid, Uid>): (brought: map<Uid, string>)
    requires Injective(clone)
    ensures forall v {:trigger clone[v]} :: v in clone && v in contents ==>
              clone[v] in brought && brought[clone[v]] == contents[v]
    ensures brought.Keys <= clone.Values
  {
    map v | v in clone && v in contents :: clone[v] := contents[v]
  }

  function ContentsCopied(contents: map<Uid, string>, clone: map<Uid, Uid>): map<Uid, string>
    requires Injective(clone)
  {
    contents + Brought(contents, clone)
  }

  ghost predicate Lists(t: Tree, dir: Uid, e: Entry) {
    e.uid in t && t[e.uid] == Node(e.name, dir, e.kind)
  }

  /** `es` holds every child of `dir` once, in some order. */
  ghost predicate IsListing(t: Tree, dir: Uid, es: seq<Entry>) {
    && (forall i :: 0 <= i < |es| ==> Lists(t, dir, es[i]))
    && (forall i, j :: 0 <= i < j < |es| ==> es[i].uid != es[j].uid)
    && (forall u :: u in t && t[u].parent == dir ==> exists i :: 0 <= i < |es| && es[i].uid == u)
  }

  class FileCore {
    var tree: Tree
    var used: set<Uid>
    var contents: map<Uid, string>
    ghost var faults: nat
    ghost var removed: seq<Uid>
    ghost var refusal: Refusal

    /** The tree is well formed and every uid ever handed out is remembered. */
    ghost predicate Valid()
      reads this
    {
      WellFormed(tree) && tree.Keys <= used && ROOT !in used
    }

    constructor ()
      ensures Valid() && tree == map[] && used == {} && contents == map[] && faults == 0 && removed == []
    {
      tree, used, contents, faults, removed, refusal := map[], {}, map[], 0, [], Refusal(OnStat, "");
    }

    method Stat(uid: Uid) returns (r: Reply<Node>)
      requires Valid()
      modifies `faults, `refusal
      ensures r.Refused? ==> refusal == Refusal(OnStat, r.error)
      ensures Valid() && faults >= old(faults)
      ensures r.Done? ==> uid in tree && r.value == tree[uid]
      ensures r.Refused? && faults == old(faults) ==> uid !in tree
    {
      var through: bool := *;
      var error: string := *;
      refusal := Refusal(OnStat, error);
      if !through {
        faults := faults + 1;
        return Refused(error);
      }
      return if uid in tree then Done(tree[uid]) else Refused(error);
    }

    method ListDirectory(dir: Uid) returns (r: Reply<seq<Entry>>)
      requires Valid()
      modifies `faults, `refusal
      ensures r.Refused? ==> refusal == Refusal(OnList, r.error)
      ensures Valid() && faults >= old(faults)
      ensures r.Done? ==> IsDirectory(tree, dir) && IsListing(tree, dir, r.value)
      ensures r.Refused? && faults == old(faults) ==> !IsDirectory(tree, dir)
    {
      var through: bool := *;
      var error: string := *;
      refusal := Refusal(OnList, error);
      if !through {
        faults := faults + 1;
        return Refused(error);
      }
      if !IsDirectory(tree, dir) {
        return Refused(error);
      }
      var rest, es := set u | u in tree && tree[u].parent == dir, [];
      while rest != {}
        invariant forall u :: u in rest ==> u in tree && tree[u].parent == dir
        invariant forall i :: 0 <= i < |es| ==> Lists(tree, dir, es[i]) && es[i].uid !in rest
        invariant forall i, j :: 0 <= i < j < |es| ==> es[i].uid != es[j].uid
        invariant forall u :: u in tree && tree[u].parent == dir ==>
                    u in rest || exists i :: 0 <= i < |es| && es[i].uid == u
        decreases rest
      {
        var u :| u in rest;
        ghost var before := es;
        es := es + [Entry(tree[u].name, u, tree[u].kind)];
        rest := rest - {u};
        assert es[|before|].uid == u;
        assert forall i :: 0 <= i < |before| ==> es[i] == before[i];
      }
      return Done(es);
    }

    /** MakeDirectory and Touch: a fresh node, unless the parent or the name will not do. */
    method Create(parent: Uid, name: string, kind: Kind) returns (r: Reply<Uid>)
      requires Valid()
      modifies this
      ensures r.Refused? ==> refusal == Refusal(OnCreate, r.error)
      ensures contents == old(contents)
      ensures Valid() && faults >= old(faults) && removed == old(removed)
      ensures r.Done? ==>
        && IsDirectory(old(tree), parent) && GoodName(name) && !NameTaken(old(tree), parent, name, r.value)
        && r.value !in old(used) && r.value != ROOT
        && tree == old(tree)[r.value := Node(name, parent, kind)] && used == old(used) + {r.value}
      ensures r.Refused? ==> tree == old(tree) && used == old(used)
      ensures r.Refused? && faults == old(faults) ==>
        !IsDirectory(tree, parent) || !GoodName(name) || NameTaken(tree, parent, name, ROOT)
    {
      var through: bool := *;
      var error: string := *;
      refusal := Refusal(OnCreate, error);
      var uid: Uid := *;
      if !through || uid in used || uid == ROOT {
        faults := faults + 1;
        return Refused(error);
      }
      if !IsDirectory(tree, parent) || !GoodName(name) || NameTaken(tree, parent, name, ROOT) {
        return Refused(error);
      }
      AddKeepsWellFormed(tree, uid, Node(name, parent, kind));
      tree := tree[uid := Node(name, parent, kind)];
      used := used + {uid};
      return Done(uid);
    }

    /** Writes a new version of a file's content, whole or not at all. Whether anything but a file
        accepts content is left open. */
    method PutContent(uid: Uid, body: string) returns (r: Reply<()>)
      requires Valid()
      modifies `contents, `faults, `refusal
      ensures r.Refused? ==> refusal == Refusal(OnPut, r.error)
      ensures Valid() && faults >= old(faults)
      ensures contents == if r.Done? then old(contents)[uid := body] else old(contents)
      ensures r.Refused? && faults == old(faults) ==> !(uid in tree && tree[uid].kind.File?)
    {
      var through: bool := *;
      var accepted: bool := *;
      var error: string := *;
      refusal := Refusal(OnPut, error);
      if !through {
        faults := faults + 1;
        return Refused(error);
      }
      if !accepted && !(uid in tree && tree[uid].kind.File?) {
        return Refused(error);
      }
      contents := contents[uid := body];
      return Done(());
    }

    method Remove(uid: Uid, kind: Kind) returns (r: Reply<()>)
      requires Valid()
      modifies this
      ensures r.Refused? ==> refusal == Refusal(OnRemove, r.error)
      ensures contents == old(contents)
      ensures Valid() && faults >= old(faults) && used == old(used)
      ensures r.Done? ==>
        && uid in old(tree) && old(tree)[uid].kind == kind && !HasChild(old(tree), uid)
        && tree == old(tree) - {uid} && removed == old(removed) + [uid]
      ensures r.Refused? ==> tree == old(tree) && removed == old(removed)
      ensures r.Refused? && faults == old(faults) ==> uid !in tree || tree[uid].kind != kind || HasChild(tree, uid)
    {
      var through: bool := *;
      var error: string := *;
      refusal := Refusal(OnRemove, error);
      if !through {
        faults := faults + 1;
        return Refused(error);
      }
      if uid !in tree || tree[uid].kind != kind || HasChild(tree, uid) {
        return Refused(error);
      }
      RemoveKeepsWellFormed(tree, uid);
      tree := tree - {uid};
      removed := removed + [uid];
      return Done(());
    }

    /** Whether climbing from `u` meets `top`. */
    method ClimbsTo(u: Uid, top: Uid) returns (b: bool)
      requires Valid() && Rooted(tree, u)
      ensures b <==> Within(tree, u, top)
    {
      var cur := u;
      ghost var segs :| At(tree, u, segs);
      WithinSelf(tree, top);
      while cur != top && cur in tree
        invariant At(tree, cur, segs) && (Within(tree, u, top) <==> Within(tree, cur, top))
        decreases |segs|
      {
        WithinStep(tree, cur, top);
        cur, segs := tree[cur].parent, segs[..|segs| - 1];
      }
      return cur == top;
    }

    method Rename(uid: Uid, name: string) returns (r: Reply<()>)
      requires Valid()
      modifies this
      ensures r.Refused? ==> refusal == Refusal(OnRename, r.error)
      ensures contents == old(contents)
      ensures Valid() && faults >= old(faults) && used == old(used) && removed == old(removed)
      ensures r.Done? ==>
        && uid in old(tree) && GoodName(name) && !NameTaken(old(tree), old(tree)[uid].parent, name, uid)
        && tree == old(tree)[uid := old(tree)[uid].(name := name)]
      ensures r.Refused? ==> tree == old(tree)
      ensures r.Refused? && faults == old(faults) ==>
        uid !in tree || !GoodName(name) || NameTaken(tree, tree[uid].parent, name, uid)
    {
      var through: bool := *;
      var error: string := *;
      refusal := Refusal(OnRename, error);
      if !through {
        faults := faults + 1;
        return Refused(error);
      }
      if uid !in tree || !GoodName(name) || NameTaken(tree, tree[uid].parent, name, uid) {
        return Refused(error);
      }
      assert NodeFits(tree, uid);
      ParentIsOutside(tree, uid);
      ReplaceKeepsWellFormed(tree, uid, tree[uid].(name := name));
      tree := tree[uid := tree[uid].(name := name)];
      return Done(());
    }

    /** Moves a node under another parent, refusing a taken name and a cycle. */
    method Move(uid: Uid, parent: Uid) returns (r: Reply<()>)
      requires Valid()
      modifies this
      ensures r.Refused? ==> refusal == Refusal(OnMove, r.error)
      ensures contents == old(contents)
      ensures Valid() && faults >= old(faults) && used == old(used) && removed == old(removed)
      ensures r.Done? ==>
        && uid in old(tree) && IsDirectory(old(tree), parent) && !Within(old(tree), parent, uid)
        && !NameTaken(old(tree), parent, old(tree)[uid].name, uid)
        && tree == old(tree)[uid := old(tree)[uid].(parent := parent)]
      ensures r.Refused? ==> tree == old(tree)
      ensures r.Refused? && faults == old(faults) ==>
        || uid !in tree || !IsDirectory(tree, parent) || Within(tree, parent, uid)
        || NameTaken(tree, parent, tree[uid].name, uid)
    {
      var through: bool := *;
      var error: string := *;
      refusal := Refusal(OnMove, error);
      if !through {
        faults := faults + 1;
        return Refused(error);
      }
      if uid !in tree || !IsDirectory(tree, parent) || NameTaken(tree, parent, tree[uid].name, uid) {
        return Refused(error);
      }
      DirectoryIsRooted(tree, parent);
      assert NodeFits(tree, uid);
      var cycle := ClimbsTo(parent, uid);
      if cycle {
        return Refused(error);
      }
      ReplaceKeepsWellFormed(tree, uid, tree[uid].(parent := parent));
      tree := tree[uid := tree[uid].(parent := parent)];
      return Done(());
    }

    /** Copies a subtree under `parent`. The copy keeps the source name even where it is
        taken, and the reply carries no uid. */
    method Copy(src: Uid, parent: Uid) returns (r: Reply<()>, ghost clone: map<Uid, Uid>)
      requires Valid()
      modifies this
      ensures r.Refused? ==> refusal == Refusal(OnCopy, r.error)
      ensures Valid() && faults >= old(faults) && removed == old(removed)
      ensures r.Done? ==>
        && IsDirectory(old(tree), parent) && CloneFits(old(tree), old(used), src, clone)
        && tree == old(tree) + CopyOf(old(tree), src, parent, clone) && used == old(used) + clone.Values
        && contents == ContentsCopied(old(contents), clone)
      ensures r.Refused? ==> tree == old(tree) && used == old(used) && contents == old(contents)
      ensures r.Refused? && faults == old(faults) ==> !IsDirectory(tree, parent)
    {
      var through: bool := *;
      var error: string := *;
      refusal := Refusal(OnCopy, error);
      var chosen: map<Uid, Uid> := *;
      clone := chosen;
      if !through || !CloneFits(tree, used, src, chosen) {
        faults := faults + 1;
        return Refused(error), clone;
      }
      if !IsDirectory(tree, parent) {
        return Refused(error), clone;
      }
      CopyKeepsWellFormed(tree, used, src, parent, chosen);
      tree := tree + CopyOf(tree, src, parent, chosen);
      used := used + chosen.Values;
      contents := ContentsCopied(contents, chosen);
      return Done(()), clone;
    }
  }
}
