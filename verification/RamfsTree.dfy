/**
  The directory tree of the memory file system, as a value.

  Nodes are slots of a fixed table and slot 0 is the root. `kids` lists the children of a directory in
  the order of its sibling list.
  */
module RamfsTree {
  import opened Lists
  import opened Wrappers

  const MAX_NODES := 256
  const ROOT := 0

  datatype Fs = Fs(inUse: seq<bool>, name: seq<string>, isDir: seq<bool>, parent: seq<int>, kids: seq<seq<nat>>)

  predicate Sized(fs: Fs) {
    |fs.inUse| == |fs.name| == |fs.isDir| == |fs.parent| == |fs.kids| == MAX_NODES
  }

  // ------------------------------------------------------------------ looking up names

  /** The first of the nodes that has the name. */
  function Find(names: seq<string>, s: seq<nat>, t: string): (k: Option<nat>)
    requires forall i :: 0 <= i < |s| ==> s[i] < |names|
    ensures k.Some? ==> k.value in s && names[k.value] == t
    ensures k.None? ==> forall x <- s :: x < |names| && names[x] != t
  {
    if s == [] then None
    else
      assert s == [s[0]] + s[1..];
      if names[s[0]] == t then Some(s[0]) else Find(names, s[1..], t)
  }

  ghost predicate InRange(fs: Fs) {
    Sized(fs) && forall d: nat, i: nat :: d < MAX_NODES && i < |fs.kids[d]| ==> fs.kids[d][i] < MAX_NODES
  }

  lemma MembersInRange(fs: Fs)
    requires Sized(fs) && forall d: nat, x: nat :: d < MAX_NODES && x in fs.kids[d] ==> x < MAX_NODES
    ensures InRange(fs)
  {
    assert forall d: nat, i: nat :: d < MAX_NODES && i < |fs.kids[d]| ==> fs.kids[d][i] in fs.kids[d];
  }

  ghost function Child(fs: Fs, d: nat, t: string): Option<nat>
    requires InRange(fs) && d < MAX_NODES
  {
    Find(fs.name, fs.kids[d], t)
  }

  /** The node a path of names leads to. */
  ghost function Look(fs: Fs, path: seq<string>): (k: Option<nat>)
    requires InRange(fs)
    ensures k.Some? ==> k.value < MAX_NODES
    decreases |path|
  {
    if path == [] then Some(ROOT)
    else match Look(fs, path[..|path| - 1])
      case None => None
      case Some(d) => Child(fs, d, path[|path| - 1])
  }

  // ------------------------------------------------------------------ the tree

  /** Children point back to their parent, and only directories in use have any. */
  ghost predicate KidOk(fs: Fs, d: nat, x: nat)
    requires Sized(fs) && d < MAX_NODES && x < MAX_NODES
  {
    x != ROOT && fs.inUse[x] && fs.parent[x] == d && fs.inUse[d] && fs.isDir[d]
  }

  /** Siblings have different names. */
  ghost predicate NamesDiffer(fs: Fs, d: nat)
    requires InRange(fs) && d < MAX_NODES
  {
    Distinct(fs.kids[d]) &&
    forall x, y :: x in fs.kids[d] && y in fs.kids[d] && fs.name[x] == fs.name[y] ==> x == y
  }

  /** A node in use is listed by its parent and has a proper name. */
  ghost predicate Listed(fs: Fs, x: nat)
    requires Sized(fs) && x < MAX_NODES
  {
    0 <= fs.parent[x] < MAX_NODES && x in fs.kids[fs.parent[x]] && fs.name[x] != "" && '/' !in fs.name[x]
  }

  ghost predicate LinksAgree(fs: Fs) {
    && InRange(fs) && fs.inUse[ROOT] && fs.isDir[ROOT]
    && (forall d: nat, x: nat :: d < MAX_NODES && x in fs.kids[d] ==> KidOk(fs, d, x))
    && (forall d: nat :: d < MAX_NODES ==> NamesDiffer(fs, d))
    && (forall x: nat :: 0 < x < MAX_NODES && fs.inUse[x] ==> Listed(fs, x))
  }

  ghost predicate Reachable(fs: Fs, x: nat)
    requires InRange(fs)
  {
    exists path :: Look(fs, path) == Some(x)
  }

  /** One tree: links agree and exactly the nodes in use can be reached from the root. */
  ghost predicate Tree(fs: Fs) {
    LinksAgree(fs) && forall x: nat :: x < MAX_NODES && fs.inUse[x] ==> Reachable(fs, x)
  }

  // ------------------------------------------------------------------ paths are unique

  /** A node that was found is the root, or was found by its own name in its parent. */
  lemma LookFacts(fs: Fs, path: seq<string>)
    requires LinksAgree(fs) && Look(fs, path).Some?
    ensures
      var x := Look(fs, path).value;
      x < MAX_NODES && fs.inUse[x] && (x == ROOT <==> path == [])
      && (path != [] ==> Look(fs, path[..|path| - 1]) == Some(fs.parent[x]) && path[|path| - 1] == fs.name[x])
  {
    if path != [] {
      var d := Look(fs, path[..|path| - 1]).value;
      var x := Child(fs, d, path[|path| - 1]).value;
      assert x in fs.kids[d] && KidOk(fs, d, x);
    }
  }

  lemma {:induction false} PathIsUnique(fs: Fs, a: seq<string>, b: seq<string>)
    requires LinksAgree(fs) && Look(fs, a).Some? && Look(fs, a) == Look(fs, b)
    ensures a == b
    decreases |a|
  {
    LookFacts(fs, a);
    LookFacts(fs, b);
    if a != [] {
      var m, n := |a| - 1, |b| - 1;
      PathIsUnique(fs, a[..m], b[..n]);
      assert a == a[..m] + [a[m]] && b == b[..n] + [b[n]];
    }
  }

  /** Nothing lies below a node that is not there. */
  lemma {:induction false} NothingBelow(fs: Fs, a: seq<string>, path: seq<string>)
    requires InRange(fs) && a <= path && Look(fs, a) == None
    ensures Look(fs, path) == None
    decreases |path|
  {
    if a != path {
      var n := |path| - 1;
      assert a <= path[..n];
      NothingBelow(fs, a, path[..n]);
    }
  }

  /** How a change shows at a directory decides what lookups see. */
  lemma ChildByName(fs: Fs, d: nat, t: string, k: Option<nat>)
    requires LinksAgree(fs) && d < MAX_NODES
    requires if k.Some? then k.value in fs.kids[d] && fs.name[k.value] == t
             else forall x <- fs.kids[d] :: fs.name[x] != t
    ensures Child(fs, d, t) == k
  {
    assert NamesDiffer(fs, d);
  }

  // ------------------------------------------------------------------ creating

  /** A new node `y`, first child of `p`. */
  function Created(fs: Fs, y: nat, p: nat, nm: string, dir: bool): Fs
    requires Sized(fs) && y < MAX_NODES && p < MAX_NODES
  {
    Fs(fs.inUse[y := true], fs.name[y := nm], fs.isDir[y := dir], fs.parent[y := p], fs.kids[p := [y] + fs.kids[p]])
  }

  ghost predicate CanCreate(fs: Fs, y: nat, p: nat, nm: string) {
    LinksAgree(fs) && y < MAX_NODES && !fs.inUse[y] && p < MAX_NODES && fs.inUse[p] && fs.isDir[p]
    && nm != "" && '/' !in nm && Child(fs, p, nm) == None
  }

  lemma ParentInUse(fs: Fs, d: nat)
    requires LinksAgree(fs) && d < MAX_NODES
    ensures fs.kids[d] == [] || fs.inUse[d]
  {
    if fs.kids[d] != [] {
      assert fs.kids[d][0] in fs.kids[d];
      assert KidOk(fs, d, fs.kids[d][0]);
    }
  }

  lemma UnusedHasNoKids(fs: Fs, y: nat)
    requires LinksAgree(fs) && y < MAX_NODES && !fs.inUse[y]
    ensures fs.kids[y] == [] && forall d: nat :: d < MAX_NODES ==> y !in fs.kids[d]
  {
    ParentInUse(fs, y);
    forall d: nat | d < MAX_NODES
      ensures y !in fs.kids[d]
    {
      assert y in fs.kids[d] ==> KidOk(fs, d, y);
    }
  }

  lemma CreatedAgrees(fs: Fs, y: nat, p: nat, nm: string, dir: bool)
    requires CanCreate(fs, y, p, nm)
    ensures LinksAgree(Created(fs, y, p, nm, dir))
  {
    var fs' := Created(fs, y, p, nm, dir);
    UnusedHasNoKids(fs, y);
    forall d: nat, x: nat | d < MAX_NODES && x in fs'.kids[d]
      ensures x < MAX_NODES && KidOk(fs', d, x)
    {
      if !(d == p && x == y) {
        assert x in fs.kids[d] && KidOk(fs, d, x);
      }
    }
    forall d: nat | d < MAX_NODES
      ensures NamesDiffer(fs', d)
    {
      assert NamesDiffer(fs, d);
    }
    forall x: nat | 0 < x < MAX_NODES && fs'.inUse[x]
      ensures Listed(fs', x)
    {
      assert x != y ==> Listed(fs, x);
    }
  }

  lemma CreatedChild(fs: Fs, y: nat, p: nat, nm: string, dir: bool, d: nat, t: string)
    requires CanCreate(fs, y, p, nm) && d < MAX_NODES
    ensures LinksAgree(Created(fs, y, p, nm, dir))
    ensures Child(Created(fs, y, p, nm, dir), d, t) == if d == p && t == nm then Some(y) else Child(fs, d, t)
  {
    CreatedAgrees(fs, y, p, nm, dir);
    UnusedHasNoKids(fs, y);
    var fs' := Created(fs, y, p, nm, dir);
    ChildByName(fs', d, t, if d == p && t == nm then Some(y) else Child(fs, d, t));
  }

  lemma LookLast(fs: Fs, path: seq<string>, t: string)
    requires InRange(fs)
    ensures Look(fs, path + [t]) == if Look(fs, path).None? then None else Child(fs, Look(fs, path).value, t)
  {
    assert (path + [t])[..|path|] == path;
  }

  /** Only the new path is found differently. */
  lemma {:induction false} CreatedLook(fs: Fs, y: nat, p: nat, nm: string, dir: bool, at: seq<string>,
                                       path: seq<string>)
    requires CanCreate(fs, y, p, nm) && Look(fs, at) == Some(p)
    ensures LinksAgree(Created(fs, y, p, nm, dir))
    ensures Look(Created(fs, y, p, nm, dir), path) == if path == at + [nm] then Some(y) else Look(fs, path)
    decreases |path|
  {
    hide Child;
    CreatedAgrees(fs, y, p, nm, dir);
    if path != [] {
      var n := |path| - 1;
      var s, t := path[..n], path[n];
      assert path == s + [t];
      CreatedLook(fs, y, p, nm, dir, at, s);
      LookLast(fs, at, nm);
      if s == at + [nm] {
        CreatedChild(fs, y, p, nm, dir, y, t);
        UnusedHasNoKids(fs, y);
        NoChild(fs, y, t);
      } else if Look(fs, s).Some? {
        var d := Look(fs, s).value;
        CreatedChild(fs, y, p, nm, dir, d, t);
        if d == p {
          PathIsUnique(fs, s, at);
        }
      }
    }
  }

  lemma NoChild(fs: Fs, d: nat, t: string)
    requires InRange(fs) && d < MAX_NODES && fs.kids[d] == []
    ensures Child(fs, d, t) == None
  {
  }

  lemma CreatedTree(fs: Fs, y: nat, p: nat, nm: string, dir: bool)
    requires Tree(fs) && CanCreate(fs, y, p, nm)
    ensures Tree(Created(fs, y, p, nm, dir))
  {
    hide Look, Child;
    CreatedAgrees(fs, y, p, nm, dir);
    var fs' := Created(fs, y, p, nm, dir);
    assert Reachable(fs, p);
    var at :| Look(fs, at) == Some(p);
    forall x: nat | x < MAX_NODES && fs'.inUse[x]
      ensures Reachable(fs', x)
    {
      if x == y {
        CreatedLook(fs, y, p, nm, dir, at, at + [nm]);
      } else {
        assert Reachable(fs, x);
        var path :| Look(fs, path) == Some(x);
        CreatedLook(fs, y, p, nm, dir, at, path);
        LookLast(fs, at, nm);
      }
    }
  }

  // ------------------------------------------------------------------ removing

  /** Node `x` taken out of the list of its parent. */
  function Detached(fs: Fs, x: nat): (kids: seq<seq<nat>>)
    requires Sized(fs) && x < MAX_NODES && 0 <= fs.parent[x] < MAX_NODES
    ensures |kids| == MAX_NODES
  {
    fs.kids[fs.parent[x] := Without(fs.kids[fs.parent[x]], x)]
  }

  function Deleted(fs: Fs, x: nat): Fs
    requires Sized(fs) && x < MAX_NODES && 0 <= fs.parent[x] < MAX_NODES
  {
    fs.(inUse := fs.inUse[x := false], kids := Detached(fs, x))
  }

  ghost predicate CanDelete(fs: Fs, x: nat) {
    LinksAgree(fs) && 0 < x < MAX_NODES && fs.inUse[x] && fs.kids[x] == [] && 0 <= fs.parent[x] < MAX_NODES
  }

  /** Who is listed where once `x` is detached. */
  lemma DetachedKids(fs: Fs, x: nat, d: nat, y: nat)
    requires LinksAgree(fs) && 0 < x < MAX_NODES && fs.inUse[x] && 0 <= fs.parent[x] < MAX_NODES && d < MAX_NODES
    ensures y in Detached(fs, x)[d] <==> y in fs.kids[d] && y != x
    ensures Distinct(Detached(fs, x)[d])
  {
    assert Listed(fs, x) && NamesDiffer(fs, d) && NamesDiffer(fs, fs.parent[x]);
    WithoutFacts(fs.kids[fs.parent[x]], x, 0);
    assert x in fs.kids[d] ==> KidOk(fs, d, x);
  }

  lemma DeletedAgrees(fs: Fs, x: nat)
    requires CanDelete(fs, x)
    ensures LinksAgree(Deleted(fs, x))
  {
    hide Without;
    var fs' := Deleted(fs, x);
    forall d: nat, y: nat | d < MAX_NODES && y in fs'.kids[d]
      ensures y < MAX_NODES && KidOk(fs', d, y)
    {
      DetachedKids(fs, x, d, y);
      assert KidOk(fs, d, y);
      assert d != x;
    }
    MembersInRange(fs');
    forall d: nat | d < MAX_NODES
      ensures NamesDiffer(fs', d)
    {
      assert NamesDiffer(fs, d);
      DetachedKids(fs, x, d, x);
      forall y, z | y in fs'.kids[d] && z in fs'.kids[d] && fs'.name[y] == fs'.name[z]
        ensures y == z
      {
        DetachedKids(fs, x, d, y);
        DetachedKids(fs, x, d, z);
      }
    }
    forall y: nat | 0 < y < MAX_NODES && fs'.inUse[y]
      ensures Listed(fs', y)
    {
      assert Listed(fs, y);
      DetachedKids(fs, x, fs.parent[y], y);
    }
  }

  lemma DeletedChild(fs: Fs, x: nat, d: nat, t: string)
    requires CanDelete(fs, x) && d < MAX_NODES
    ensures LinksAgree(Deleted(fs, x))
    ensures Child(Deleted(fs, x), d, t) == if Child(fs, d, t) == Some(x) then None else Child(fs, d, t)
  {
    hide Without, Detached;
    DeletedAgrees(fs, x);
    var fs' := Deleted(fs, x);
    var k := if Child(fs, d, t) == Some(x) then None else Child(fs, d, t);
    forall y: nat | y in fs'.kids[d] || y in fs.kids[d]
      ensures y in fs'.kids[d] <==> y in fs.kids[d] && y != x
    {
      DetachedKids(fs, x, d, y);
    }
    assert NamesDiffer(fs, d);
    ChildByName(fs', d, t, k);
  }

  /** Only the deleted path is found differently: it is gone. */
  lemma {:induction false} DeletedLook(fs: Fs, x: nat, path: seq<string>)
    requires CanDelete(fs, x)
    ensures LinksAgree(Deleted(fs, x))
    ensures Look(Deleted(fs, x), path) == if Look(fs, path) == Some(x) then None else Look(fs, path)
    decreases |path|
  {
    hide Child, Deleted;
    DeletedAgrees(fs, x);
    if path != [] {
      var n := |path| - 1;
      DeletedLook(fs, x, path[..n]);
      if Look(fs, path[..n]).Some? {
        var d := Look(fs, path[..n]).value;
        DeletedChild(fs, x, d, path[n]);
        if d == x {
          NoChild(fs, x, path[n]);
        }
      }
    }
  }

  lemma DeletedTree(fs: Fs, x: nat)
    requires Tree(fs) && CanDelete(fs, x)
    ensures Tree(Deleted(fs, x))
  {
    hide Look, Child;
    DeletedAgrees(fs, x);
    var fs' := Deleted(fs, x);
    forall y: nat | y < MAX_NODES && fs'.inUse[y]
      ensures Reachable(fs', y)
    {
      assert Reachable(fs, y);
      var path :| Look(fs, path) == Some(y);
      DeletedLook(fs, x, path);
    }
  }

  // ------------------------------------------------------------------ moving

  /** Node `x` renamed to `nm` and made the first child of `p`. */
  function Renamed(fs: Fs, x: nat, p: nat, nm: string): Fs
    requires Sized(fs) && x < MAX_NODES && 0 <= fs.parent[x] < MAX_NODES && p < MAX_NODES
  {
    var kids := Detached(fs, x);
    fs.(name := fs.name[x := nm], parent := fs.parent[x := p], kids := kids[p := [x] + kids[p]])
  }

  ghost predicate CanRename(fs: Fs, x: nat, p: nat, nm: string) {
    LinksAgree(fs) && 0 < x < MAX_NODES && fs.inUse[x] && 0 <= fs.parent[x] < MAX_NODES
    && p < MAX_NODES && fs.inUse[p] && fs.isDir[p]
    && nm != "" && '/' !in nm && Child(fs, p, nm) == None
  }

  lemma RenamedKids(fs: Fs, x: nat, p: nat, nm: string, d: nat, y: nat)
    requires CanRename(fs, x, p, nm) && d < MAX_NODES
    ensures y in Renamed(fs, x, p, nm).kids[d] <==> if y == x then d == p else y in fs.kids[d]
    ensures Distinct(Renamed(fs, x, p, nm).kids[d])
  {
    hide Detached;
    DetachedKids(fs, x, d, y);
    DetachedKids(fs, x, d, x);
  }

  lemma RenamedAgrees(fs: Fs, x: nat, p: nat, nm: string)
    requires CanRename(fs, x, p, nm)
    ensures LinksAgree(Renamed(fs, x, p, nm))
  {
    hide Detached;
    var fs' := Renamed(fs, x, p, nm);
    forall d: nat, y: nat | d < MAX_NODES && y in fs'.kids[d]
      ensures y < MAX_NODES && KidOk(fs', d, y)
    {
      RenamedKids(fs, x, p, nm, d, y);
      assert y != x ==> KidOk(fs, d, y);
    }
    MembersInRange(fs');
    forall d: nat | d < MAX_NODES
      ensures NamesDiffer(fs', d)
    {
      assert NamesDiffer(fs, d);
      RenamedKids(fs, x, p, nm, d, x);
      forall y, z | y in fs'.kids[d] && z in fs'.kids[d] && fs'.name[y] == fs'.name[z]
        ensures y == z
      {
        RenamedKids(fs, x, p, nm, d, y);
        RenamedKids(fs, x, p, nm, d, z);
      }
    }
    forall y: nat | 0 < y < MAX_NODES && fs'.inUse[y]
      ensures Listed(fs', y)
    {
      assert Listed(fs, y);
      RenamedKids(fs, x, p, nm, if y == x then p else fs.parent[y], y);
    }
  }

  lemma RenamedChild(fs: Fs, x: nat, p: nat, nm: string, d: nat, t: string)
    requires CanRename(fs, x, p, nm) && d < MAX_NODES
    ensures LinksAgree(Renamed(fs, x, p, nm))
    ensures Child(Renamed(fs, x, p, nm), d, t) ==
            if d == p && t == nm then Some(x) else if Child(fs, d, t) == Some(x) then None else Child(fs, d, t)
  {
    hide Detached;
    RenamedAgrees(fs, x, p, nm);
    var fs' := Renamed(fs, x, p, nm);
    forall y: nat
      ensures y in fs'.kids[d] <==> if y == x then d == p else y in fs.kids[d]
    {
      RenamedKids(fs, x, p, nm, d, y);
    }
    assert NamesDiffer(fs, d);
    ChildByName(fs', d, t, if d == p && t == nm then Some(x) else if Child(fs, d, t) == Some(x) then None
        else Child(fs, d, t));
  }

  /** What a path leads to after `source` has become `target`. */
  ghost function Moved(fs: Fs, source: seq<string>, target: seq<string>, path: seq<string>): Option<nat>
    requires InRange(fs)
  {
    if target <= path then Look(fs, source + path[|target|..])
    else if source <= path then None
    else Look(fs, path)
  }

  /** The subtree of `x` is found under the new path and nowhere under the old one; all else is found
      as before. The target must not lie inside `x`. */
  lemma {:induction false} RenamedLook(fs: Fs, x: nat, p: nat, nm: string, source: seq<string>, at: seq<string>,
                                       path: seq<string>)
    requires CanRename(fs, x, p, nm) && Look(fs, source) == Some(x) && Look(fs, at) == Some(p) && !(source <= at)
    ensures LinksAgree(Renamed(fs, x, p, nm))
    ensures Look(Renamed(fs, x, p, nm), path) == Moved(fs, source, at + [nm], path)
    decreases |path|
  {
    hide Child, Renamed, Listed;
    RenamedAgrees(fs, x, p, nm);
    LookFacts(fs, source);
    if path == [] {
      return;
    }
    var n := |path| - 1;
    var s, t := path[..n], path[n];
    assert path == s + [t];
    RenamedLook(fs, x, p, nm, source, at, s);
    RenamedLookStep(fs, x, p, nm, source, at, s, t);
  }

  lemma RenamedLookStep(fs: Fs, x: nat, p: nat, nm: string, source: seq<string>, at: seq<string>, s: seq<string>,
                        t: string)
    requires CanRename(fs, x, p, nm) && Look(fs, source) == Some(x) && Look(fs, at) == Some(p) && !(source <= at)
    requires LinksAgree(Renamed(fs, x, p, nm)) && Look(Renamed(fs, x, p, nm), s) == Moved(fs, source, at + [nm], s)
    ensures Look(Renamed(fs, x, p, nm), s + [t]) == Moved(fs, source, at + [nm], s + [t])
  {
    hide Child, Renamed, Listed, Look;
    var fs', target := Renamed(fs, x, p, nm), at + [nm];
    LookLast(fs', s, t);
    if Moved(fs, source, target, s).Some? {
      RenamedChild(fs, x, p, nm, Moved(fs, source, target, s).value, t);
    }
    if target <= s {
      StepInside(fs, x, p, source, at, target, s, t);
    } else if s + [t] == target {
      assert s == (s + [t])[..|s|] == target[..|at|] == at && t == (s + [t])[|s|] == nm;
      assert (s + [t])[|target|..] == [] && source + [] == source;
    } else if source <= s {
    } else {
      StepOutside(fs, x, p, nm, source, at, s, t);
    }
  }

  /** Inside the moved subtree nothing but its place has changed. */
  lemma StepInside(fs: Fs, x: nat, p: nat, source: seq<string>, at: seq<string>, target: seq<string>, s: seq<string>,
                   t: string)
    requires LinksAgree(fs) && Look(fs, source) == Some(x) && Look(fs, at) == Some(p) && !(source <= at) && target <= s
    ensures
      var q := source + s[|target|..];
      Moved(fs, source, target, s) == Look(fs, q)
      && Moved(fs, source, target, s + [t]) == Look(fs, q + [t])
      && Look(fs, q) != Some(p) && Look(fs, q + [t]) != Some(x)
      && (Look(fs, q).Some? ==> Child(fs, Look(fs, q).value, t) == Look(fs, q + [t]))
      && (Look(fs, q).None? ==> Look(fs, q + [t]).None?)
  {
    hide Child, Look;
    var q := source + s[|target|..];
    assert source + (s + [t])[|target|..] == q + [t];
    LookLast(fs, q, t);
    if Look(fs, q) == Some(p) {
      PathIsUnique(fs, q, at);
      assert false;
    }
    if Look(fs, q + [t]) == Some(x) {
      PathIsUnique(fs, q + [t], source);
      assert false;
    }
  }

  /** Outside it, only the two ends of the move have changed. */
  lemma StepOutside(fs: Fs, x: nat, p: nat, nm: string, source: seq<string>, at: seq<string>, s: seq<string>, t: string)
    requires LinksAgree(fs) && Look(fs, source) == Some(x) && Look(fs, at) == Some(p)
    requires !(at + [nm] <= s + [t]) && !(source <= s)
    ensures
      Moved(fs, source, at + [nm], s) == Look(fs, s)
      && (Look(fs, s).None? ==> Moved(fs, source, at + [nm], s + [t]) == None)
      && (Look(fs, s).Some? ==>
            var d := Look(fs, s).value;
            !(d == p && t == nm)
            && Moved(fs, source, at + [nm], s + [t]) == if Child(fs, d, t) == Some(x) then None else Child(fs, d, t))
  {
    hide Child, Look;
    var path := s + [t];
    LookLast(fs, s, t);
    assert !(at + [nm] <= s);
    assert source <= path ==> source == path;
    if Look(fs, s) == Some(p) {
      PathIsUnique(fs, s, at);
    }
    if Look(fs, path) == Some(x) {
      PathIsUnique(fs, path, source);
    }
  }

  lemma RenamedTree(fs: Fs, x: nat, p: nat, nm: string, source: seq<string>, at: seq<string>)
    requires Tree(fs) && CanRename(fs, x, p, nm)
    requires Look(fs, source) == Some(x) && Look(fs, at) == Some(p) && !(source <= at)
    ensures Tree(Renamed(fs, x, p, nm))
  {
    hide Child, Look, Renamed, Listed;
    RenamedAgrees(fs, x, p, nm);
    var fs', target := Renamed(fs, x, p, nm), at + [nm];
    LookLast(fs, at, nm);
    forall y: nat | y < MAX_NODES && fs'.inUse[y]
      ensures Reachable(fs', y)
    {
      assert fs'.inUse == fs.inUse by { RenamedInUse(fs, x, p, nm); }
      assert Reachable(fs, y);
      var path :| Look(fs, path) == Some(y);
      if source <= path {
        var path' := target + path[|source|..];
        assert source + path'[|target|..] == path;
        RenamedLook(fs, x, p, nm, source, at, path');
      } else {
        NotBelow(fs, target, path);
        RenamedLook(fs, x, p, nm, source, at, path);
      }
    }
  }

  lemma RenamedInUse(fs: Fs, x: nat, p: nat, nm: string)
    requires CanRename(fs, x, p, nm)
    ensures Renamed(fs, x, p, nm).inUse == fs.inUse
  {
  }

  lemma NotBelow(fs: Fs, a: seq<string>, path: seq<string>)
    requires InRange(fs) && Look(fs, a) == None && Look(fs, path).Some?
    ensures !(a <= path)
  {
    if a <= path {
      NothingBelow(fs, a, path);
      assert false;
    }
  }

  /** Moving a node into its own subtree cuts that part of the tree off: the nodes from `x` down to its
      new parent cannot be reached any more. */
  lemma {:induction false} CutOff(fs: Fs, x: nat, p: nat, nm: string, source: seq<string>, at: seq<string>, k: nat,
                                  path: seq<string>)
    requires CanRename(fs, x, p, nm) && Look(fs, source) == Some(x) && Look(fs, at) == Some(p)
    requires source <= at && |source| <= k <= |at| && Look(fs, at[..k]).Some?
    ensures LinksAgree(Renamed(fs, x, p, nm)) && Look(Renamed(fs, x, p, nm), path) != Look(fs, at[..k])
    decreases |path|
  {
    hide Child, Look, Renamed;
    RenamedAgrees(fs, x, p, nm);
    var fs', y := Renamed(fs, x, p, nm), Look(fs, at[..k]).value;
    LookFacts(fs, source);
    LookFacts(fs, at[..k]);
    assert source != [] && at[..|source|] == source && at[..|at|] == at;
    if Look(fs', path) == Some(y) {
      LookFacts(fs', path);
      assert path != [];
      RenamedParent(fs, x, p, nm, y);
      if y == x {
        CutOff(fs, x, p, nm, source, at, |at|, path[..|path| - 1]);
      } else {
        assert k > |source| && at[..k][..k - 1] == at[..k - 1];
        CutOff(fs, x, p, nm, source, at, k - 1, path[..|path| - 1]);
      }
      assert false;
    }
  }

  lemma RenamedParent(fs: Fs, x: nat, p: nat, nm: string, y: nat)
    requires CanRename(fs, x, p, nm) && y < MAX_NODES
    ensures Sized(Renamed(fs, x, p, nm)) && Renamed(fs, x, p, nm).parent[y] == if y == x then p else fs.parent[y]
  {
  }

  /** A rename keeps the tree iff its destination is not inside the moved node. */
  lemma RenameKeepsTree(fs: Fs, x: nat, p: nat, nm: string, source: seq<string>, at: seq<string>)
    requires Tree(fs) && CanRename(fs, x, p, nm) && Look(fs, source) == Some(x) && Look(fs, at) == Some(p)
    ensures Tree(Renamed(fs, x, p, nm)) <==> !(source <= at)
  {
    hide Child, Look, Renamed;
    if source <= at {
      var fs' := Renamed(fs, x, p, nm);
      assert at[..|source|] == source;
      RenamedAgrees(fs, x, p, nm);
      RenamedInUse(fs, x, p, nm);
      forall path
        ensures Look(fs', path) != Some(x)
      {
        CutOff(fs, x, p, nm, source, at, |source|, path);
      }
      assert fs'.inUse[x] && !Reachable(fs', x);
    } else {
      RenamedTree(fs, x, p, nm, source, at);
    }
  }

  /** The root with one directory, `a`, in slot 1. */
  function OneDirectory(): Fs {
    Fs(seq(MAX_NODES, i => i <= 1), seq(MAX_NODES, i => if i == 0 then "/" else if i == 1 then "a" else ""),
       seq(MAX_NODES, i => i <= 1), seq(MAX_NODES, i => if i == 1 then 0 else -1),
       seq(MAX_NODES, i => if i == 0 then [1] else []))
  }

  lemma OneDirectoryIsTree()
    ensures Tree(OneDirectory()) && Look(OneDirectory(), ["a"]) == Some(1)
  {
    var fs := OneDirectory();
    assert InRange(fs);
    assert forall d: nat :: d < MAX_NODES ==> NamesDiffer(fs, d);
    assert fs.kids[0] == [1] && fs.name[1] == "a" && [1][0] in [1];
    assert Listed(fs, 1);
    ChildByName(fs, 0, "a", Some(1));
    assert Look(fs, []) == Some(ROOT);
    assert ["a"][..0] == [];
    assert Look(fs, ["a"]) == Some(1);
    assert Reachable(fs, 0) && Reachable(fs, 1);
  }

  /** Moving /a to /a/b breaks the tree. */
  lemma RenameCanBreakTheTree()
    ensures var fs := OneDirectory();
            Tree(fs) && CanRename(fs, 1, 1, "b") && Look(fs, ["a"]) == Some(1) && !Tree(Renamed(fs, 1, 1, "b"))
  {
    OneDirectoryIsTree();
    var fs := OneDirectory();
    NoChild(fs, 1, "b");
    RenameKeepsTree(fs, 1, 1, "b", ["a"], ["a"]);
  }
}
