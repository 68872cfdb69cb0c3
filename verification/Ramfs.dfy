/**
  The memory file system's node table: parent, first-child and next-sibling links rewired in place.
  File contents are not part of the model.
  */
module Ramfs {
  import opened Lists
  import opened RamfsTree
  import opened Wrappers
  import opened VfsPath

  const NAME_MAX := 255
  const MAX_HANDLES := 64

  const OK := 0
  const ENOENT := -2
  const EBUSY := -16
  const EEXIST := -17
  const EISDIR := -21
  const ENFILE := -23
  const ENOSPC := -28
  const ENAMETOOLONG := -36
  const ENOTEMPTY := -39

  // ------------------------------------------------------------------ sibling lists

  /** The children of every directory in use are linked. */
  ghost predicate Links(inUse: seq<bool>, children: seq<int>, next: seq<int>, kids: seq<seq<nat>>) {
    |children| == |next| == |kids| == |inUse| &&
    forall d: nat :: d < |inUse| && inUse[d] ==> Linked(next, children[d], kids[d])
  }

  // ------------------------------------------------------------------ the file system

  class FileSystem {
    var inUse: seq<bool>
    var name: seq<string>
    var isDir: seq<bool>
    var parent: seq<int>
    var children: seq<int>
    var next: seq<int>
    var handles: seq<bool>
    ghost var kids: seq<seq<nat>>

    ghost function View(): Fs
      reads this
    {
      Fs(inUse, name, isDir, parent, kids)
    }

    ghost predicate Valid()
      reads this
    {
      Tree(View()) && Links(inUse, children, next, kids) && |handles| == MAX_HANDLES
    }

    constructor ()
      ensures Valid() && forall path :: path != [] ==> Look(View(), path) == None
    {
      inUse := seq(MAX_NODES, i => i == ROOT);
      name := seq(MAX_NODES, i => if i == ROOT then "/" else "");
      isDir := seq(MAX_NODES, i => i == ROOT);
      parent := seq(MAX_NODES, _ => NULL);
      children := seq(MAX_NODES, _ => NULL);
      next := seq(MAX_NODES, _ => NULL);
      handles := seq(MAX_HANDLES, _ => false);
      kids := seq(MAX_NODES, _ => []);
      new;
      EmptyTree(View());
    }

    /** What a path names. */
    ghost function Named(path: string): Option<nat>
      requires Valid()
      reads this
    {
      if Absolute(path) then Look(View(), Tokens(path)) else None
    }

    /** The path has a name and lies in a directory that exists. */
    ghost predicate InDirectory(path: string)
      requires Valid()
      reads this
    {
      var t := Tokens(path);
      t != [] && (var d := Look(View(), t[..|t| - 1]); d.Some? && isDir[d.value])
    }

    /** The path lies in a directory that is found with the buffer for its name. */
    ghost predicate Placeable(path: string)
      requires Valid()
      reads this
    {
      Absolute(path) && path[|path| - 1] != '/' && InDirectory(path) && |path| - 1 - |Last(Tokens(path))| < PATH_MAX
    }

    /** What creating a node at a path that is not there yet comes to. */
    ghost function Verdict(path: string): int
      requires Valid()
      reads this
    {
      if !Placeable(path) then ENOENT
      else if |Last(Tokens(path))| > NAME_MAX then ENAMETOOLONG
      else if forall x: nat :: x < MAX_NODES ==> inUse[x] then ENOSPC
      else OK
    }

    /** The child of a directory in use that has the name. */
    method FindChild(d: nat, t: string) returns (k: Option<nat>)
      requires Valid() && d < MAX_NODES && inUse[d]
      ensures k == Child(View(), d, t)
    {
      hide Tree, Look;
      KidsInRange(View(), d);
      ghost var s := kids[d];
      ghost var i := 0;
      var child := children[d];
      LinkedStart(next, child, s);
      while child != NULL
        invariant i <= |s| && child == At(s, i)
        invariant Find(name, s, t) == Find(name, s[i..], t)
        decreases |s| - i
      {
        FindStep(name, s, i, t);
        if name[child] == t {
          return Some(child);
        }
        LinkedAt(next, children[d], s, i);
        child := next[child];
        i := i + 1;
      }
      return None;
    }

    method LookupPath(path: string) returns (node: Option<nat>)
      requires Valid()
      ensures node == Named(path)
      ensures node.Some? ==> node.value < MAX_NODES && inUse[node.value]
    {
      hide Tokens, FirstSlash, Child, Linked;
      if !Absolute(path) {
        return None;
      }
      var n := ROOT;
      var p := 1;
      ghost var done: seq<string> := [];
      AfterSlash(path);
      while p < |path|
        invariant 1 <= p <= |path| && Look(View(), done) == Some(n)
        invariant Tokens(path) == done + Tokens(path[p..])
        decreases |path| - p
      {
        var end := FindSlash(path, p);
        NextPart(path, p, end);
        if end == p {
          p := end + 1;
          continue;
        }
        LookFacts(View(), done);
        LookLast(View(), done, path[p..end]);
        var k := None;
        if isDir[n] {
          k := FindChild(n, path[p..end]);
        } else {
          FileHasNoChild(View(), n, path[p..end]);
        }
        if k.None? {
          NothingBelow(View(), done + [path[p..end]], Tokens(path));
          return None;
        }
        n := k.value;
        done := done + [path[p..end]];
        p := if end < |path| then end + 1 else end;
      }
      assert path[p..] == "" && done + [] == done;
      NoTokens();
      LookFacts(View(), done);
      return Some(n);
    }

    /** The directory a path lies in and the name it has there; `at` leads to that directory. */
    method LookupParent(path: string) returns (parent: Option<nat>, nm: string, ghost at: seq<string>)
      requires Valid()
      ensures parent.Some? ==> Absolute(path) && |path| > 1 && parent.value < MAX_NODES && inUse[parent.value]
      ensures parent.Some? ==> Look(View(), at) == parent
      ensures Absolute(path) && |path| > 1 ==> Tokens(path) == at + (if nm == "" then [] else [nm]) && '/' !in nm
      ensures Absolute(path) && |path| > 1 ==>
                |nm| < |path| && parent == if |path| - 1 - |nm| >= PATH_MAX then None else Look(View(), at)
      ensures Absolute(path) && |path| > 1 ==> (nm == "" <==> path[|path| - 1] == '/')
    {
      hide Tokens, Look, Tree;
      nm, at := "", [];
      if !Absolute(path) || |path| == 1 {
        return None, nm, at;
      }
      var last := 0;
      for p := 1 to |path|
        invariant last < p && path[last] == '/' && '/' !in path[last + 1..p]
      {
        if path[p] == '/' {
          last := p;
        }
        assert path[last + 1..p + 1] == if last == p then [] else path[last + 1..p] + [path[p]];
      }
      nm := path[last + 1..];
      at := Tokens(path[..last]);
      SplitPath(path, last);
      assert nm != "" ==> nm[|nm| - 1] == path[|path| - 1] && nm[|nm| - 1] in nm;
      if last >= PATH_MAX {
        return None, nm, at;
      }
      parent := LookupPath(if last == 0 then "/" else path[..last]);
      NoTokens();
    }

    method AllocNode() returns (found: bool, y: nat)
      requires Valid()
      ensures found ==> y < MAX_NODES && !inUse[y]
      ensures !found ==> forall x: nat :: x < MAX_NODES ==> inUse[x]
    {
      hide Look, Linked;
      for i := 0 to MAX_NODES
        invariant forall x: nat :: x < i ==> inUse[x]
      {
        if !inUse[i] {
          return true, i;
        }
      }
      return false, 0;
    }

    /** Links node `y`, not in use so far, in front of the children of `p`. */
    method Attach(y: nat, p: nat, nm: string, dir: bool)
      requires Valid() && CanCreate(View(), y, p, nm)
      modifies this`inUse, this`name, this`isDir, this`parent, this`children, this`next, this`kids
      ensures Valid() && View() == Created(old(View()), y, p, nm, dir)
    {
      hide Tree, Linked, Look;
      CreatedTree(View(), y, p, nm, dir);
      UnusedHasNoKids(View(), y);
      LinksAttach(inUse, children, next, kids, y, p);
      inUse := inUse[y := true];
      name := name[y := nm];
      isDir := isDir[y := dir];
      parent := parent[y := p];
      children := children[y := NULL];
      next := next[y := children[p]];
      children := children[p := y];
      kids := kids[p := [y] + kids[p]];
    }

    /** Takes node `x` out of the list of its parent. */
    method Unlink(x: nat)
      requires Links(inUse, children, next, kids) && LinksAgree(View()) && 0 < x < MAX_NODES && inUse[x]
      modifies this`children, this`next, this`kids
      ensures 0 <= parent[x] < MAX_NODES && kids == Detached(old(View()), x)
      ensures Links(inUse, children, next, kids)
    {
      hide Linked, Look, Without;
      assert Listed(View(), x);
      var p := parent[x];
      assert NamesDiffer(View(), p) && KidOk(View(), p, x);
      ghost var s := kids[p];
      ghost var i := 0;
      var prev, cur := NULL, children[p];
      LinkedStart(next, cur, s);
      while cur != NULL && cur != x
        invariant i <= |s| && cur == At(s, i) && prev == (if i == 0 then NULL else s[i - 1]) && x !in s[..i]
        invariant children == old(children) && next == old(next) && kids == old(kids)
        decreases |s| - i
      {
        LinkedAt(next, children[p], s, i);
        assert s[..i + 1] == s[..i] + [s[i]];
        prev := cur;
        cur := next[cur];
        i := i + 1;
      }
      assert s[..|s|] == s;
      assert cur == x;
      LinkedAt(next, children[p], s, i);
      if i > 0 {
        LinkedAt(next, children[p], s, i - 1);
      }
      LinksUnlink(View(), children, next, p, i);
      if prev == NULL {
        children := children[p := next[x]];
      } else {
        next := next[prev := next[x]];
      }
      kids := kids[p := Without(s, x)];
    }

    /** A new node at `path`, unless it exists, its directory does not, or there is no room. */
    method Create(path: string, dir: bool) returns (ret: int, y: nat)
      requires Valid() && Named(path) == None
      modifies this`inUse, this`name, this`isDir, this`parent, this`children, this`next, this`kids
      ensures Valid() && ret == old(Verdict(path))
      ensures ret != OK ==> unchanged(this)
      ensures ret == OK ==> path != "" && path[|path| - 1] != '/' && |Last(Tokens(path))| <= 255
      ensures ret == ENAMETOOLONG ==> |Last(Tokens(path))| > 255
      ensures ret == ENOSPC ==> |Last(Tokens(path))| <= 255 && forall x: nat :: x < 256 ==> old(inUse)[x]
      ensures ret == OK ==> y < MAX_NODES && !old(inUse)[y] && isDir[y] == dir && Named(path) == Some(y)
      ensures ret == OK ==> forall t :: t != Tokens(path) ==> Look(View(), t) == Look(old(View()), t)
    {
      hide Tree, Linked, Look, Child, Tokens;
      y := 0;
      TreeAgrees(View());
      var parent, nm, at := LookupParent(path);
      assert nm != "" && Absolute(path) && |path| > 1 ==> Tokens(path)[..|Tokens(path)| - 1] == at;
      if parent.None? || !isDir[parent.value] {
        return ENOENT, 0;
      }
      NewName(View(), at, parent.value, nm);
      if |nm| > NAME_MAX {
        return ENAMETOOLONG, 0;
      }
      var found;
      found, y := AllocNode();
      if !found {
        return ENOSPC, y;
      }
      ghost var fs := View();
      Attach(y, parent.value, nm, dir);
      forall t
        ensures Look(View(), t) == if t == Tokens(path) then Some(y) else Look(fs, t)
      {
        CreatedLook(fs, y, parent.value, nm, dir, at, t);
      }
      return OK, y;
    }

    /** Only the new directory is found differently. */
    method Mkdir(path: string) returns (ret: int)
      requires Valid()
      modifies this`inUse, this`name, this`isDir, this`parent, this`children, this`next, this`kids
      ensures Valid() && ret == if old(Named(path)).Some? then EEXIST else old(Verdict(path))
      ensures ret != OK ==> unchanged(this)
      ensures ret == OK ==> Named(path).Some? && Named(path).value < MAX_NODES && isDir[Named(path).value]
                            && !old(inUse)[Named(path).value]
      ensures ret == OK ==> forall t :: t != Tokens(path) ==> Look(View(), t) == Look(old(View()), t)
    {
      hide Tree, Linked, Look, Tokens;
      TreeAgrees(View());
      var node := LookupPath(path);
      if node.Some? {
        return EEXIST;
      }
      var y;
      ret, y := Create(path, true);
    }

    /** Opens a file, creating it on demand. A file that was created stays when no handle is left. */
    method Open(path: string, create: bool, exclusive: bool) returns (ret: int)
      requires Valid()
      modifies this
      ensures Valid()
      ensures old(Named(path)).Some? || !create ==> View() == old(View())
      ensures old(Named(path)).None? && !create ==> ret == ENOENT
      ensures old(Named(path)).None? && create && old(Verdict(path)) != OK ==> ret == old(Verdict(path))
      ensures ret == EISDIR <==>
                var named := old(Named(path)); named.Some? && named.value < MAX_NODES && old(isDir)[named.value]
      ensures ret == EEXIST <==> old(Named(path)).Some? && ret != EISDIR && create && exclusive
      ensures ret >= 0 || ret == ENFILE <==>
                if old(Named(path)).Some? then ret != EISDIR && !(create && exclusive)
                else create && old(Verdict(path)) == OK
      ensures ret in {ENOENT, ENAMETOOLONG, ENOSPC, EISDIR, EEXIST} ==> View() == old(View())
      ensures ret >= 0 ==> Named(path).Some? && ret < MAX_HANDLES
      ensures ret >= 0 || ret == ENFILE ==> Named(path).Some? && Named(path).value < MAX_NODES
                                            && !isDir[Named(path).value]
      ensures ret >= 0 ==> !old(handles)[ret] && handles == old(handles)[ret := true]
      ensures ret >= 0 || ret == ENFILE ==> forall t :: t != Tokens(path) ==> Look(View(), t) == Look(old(View()), t)
      ensures ret == ENFILE ==> Named(path).Some? && forall h: nat :: h < MAX_HANDLES ==> old(handles)[h]
      ensures ret >= 0 || ret in {ENOENT, ENAMETOOLONG, ENOSPC, EISDIR, EEXIST, ENFILE}
    {
      hide Tree, Linked, Look, Tokens;
      TreeAgrees(View());
      var node := LookupPath(path);
      if node.None? {
        if !create {
          return ENOENT;
        }
        var y;
        ret, y := Create(path, false);
        if ret != OK {
          return;
        }
      } else {
        if isDir[node.value] {
          return EISDIR;
        }
        if create && exclusive {
          return EEXIST;
        }
      }
      var h := AllocHandle();
      return h;
    }

    method AllocHandle() returns (h: int)
      requires |handles| == MAX_HANDLES
      modifies this`handles
      ensures h >= 0 ==> h < MAX_HANDLES && !old(handles)[h] && handles == old(handles)[h := true]
      ensures h < 0 ==> h == ENFILE && handles == old(handles) && forall i: nat :: i < MAX_HANDLES ==> handles[i]
    {
      for i := 0 to MAX_HANDLES
        invariant handles == old(handles) && forall j: nat :: j < i ==> handles[j]
      {
        if !handles[i] {
          handles := handles[i := true];
          return i;
        }
      }
      return ENFILE;
    }

    /** Only the deleted path is found differently. */
    method Delete(path: string) returns (ret: int)
      requires Valid()
      modifies this`inUse, this`children, this`next, this`kids
      ensures Valid() && ret in {OK, ENOENT, EBUSY, ENOTEMPTY}
      ensures ret == ENOENT <==> old(Named(path)).None?
      ensures ret == EBUSY <==> old(Named(path)) == Some(ROOT)
      ensures ret == ENOTEMPTY <==> old(Named(path)).Some? && old(Named(path)).value != ROOT
                                    && old(Named(path)).value < |old(kids)| && old(kids)[old(Named(path)).value] != []
      ensures ret != OK ==> unchanged(this)
      ensures ret == OK ==> Absolute(path) && Named(path) == None
      ensures ret == OK ==> forall t :: t != Tokens(path) ==> Look(View(), t) == Look(old(View()), t)
    {
      hide Tree, Linked, Look, Tokens, Without, Detached;
      TreeAgrees(View());
      var node := LookupPath(path);
      if node.None? {
        return ENOENT;
      }
      var x := node.value;
      if x == ROOT {
        return EBUSY;
      }
      NoKidsInFile(View(), x);
      ListEnds(next, children[x], kids[x]);
      if isDir[x] && children[x] != NULL {
        return ENOTEMPTY;
      }
      ghost var fs := View();
      DeletedTree(fs, x) by { assert Listed(fs, x); }
      Unlink(x);
      inUse := inUse[x := false];
      TreeAgrees(View());
      forall t
        ensures Look(View(), t) == if t == Tokens(path) then None else Look(fs, t)
      {
        DeletedLook(fs, x, t);
        if Look(fs, t) == Some(x) {
          PathIsUnique(fs, t, Tokens(path));
        }
      }
      return OK;
    }

    /** The call moves a node: it exists, and the new path is free and names something in a directory. */
    ghost predicate Renameable(oldPath: string, newPath: string)
      requires Valid()
      reads this
    {
      && Named(oldPath).Some? && Named(oldPath) != Some(ROOT)
      && Named(newPath).None? && Placeable(newPath) && |Last(Tokens(newPath))| <= NAME_MAX
    }

    /** Moves a node. Everything below the old path is then found below the new one, and everything
        else as before. The file system stays valid iff the call does not move a node into itself. */
    method Rename(oldPath: string, newPath: string) returns (ret: int)
      requires Valid()
      modifies this`name, this`parent, this`children, this`next, this`kids
      ensures ret in {OK, ENOENT, EBUSY, EEXIST, ENAMETOOLONG}
      ensures ret == OK <==> old(Renameable(oldPath, newPath))
      ensures Valid() <==> !(old(Renameable(oldPath, newPath)) && Inside(Tokens(oldPath), Tokens(newPath)))
      ensures old(Named(oldPath)).None? ==> ret == ENOENT
      ensures ret == EBUSY <==> old(Named(oldPath)) == Some(ROOT)
      ensures ret == EEXIST <==> old(Named(oldPath)).Some? && old(Named(oldPath)) != Some(ROOT)
                                 && old(Named(newPath)).Some?
      ensures ret != OK ==> unchanged(this)
      ensures ret == OK && !Inside(Tokens(oldPath), Tokens(newPath)) ==>
                InRange(View())
                && forall t :: Look(View(), t) == Moved(old(View()), Tokens(oldPath), Tokens(newPath), t)
    {
      hide Tree, Linked, Look, Child, Tokens, Without, Detached, Moved;
      TreeAgrees(View());
      var node := LookupPath(oldPath);
      if node.None? {
        return ENOENT;
      }
      var x := node.value;
      if x == ROOT {
        return EBUSY;
      }
      var target := LookupPath(newPath);
      if target.Some? {
        return EEXIST;
      }
      var p, nm, at := LookupParent(newPath);
      if p.None? || !isDir[p.value] {
        return ENOENT;
      }
      if |nm| > NAME_MAX {
        return ENAMETOOLONG;
      }
      NewName(View(), at, p.value, nm);
      assert Tokens(newPath) == at + [nm] && Tokens(newPath)[..|Tokens(newPath)| - 1] == at;
      MoveNode(x, p.value, nm, Tokens(oldPath), at);
      return OK;
    }

    /** Unlinks the node and links it under its new name in front of the children of `p`. */
    method MoveNode(x: nat, p: nat, nm: string, ghost source: seq<string>, ghost at: seq<string>)
      requires Valid() && 0 < x < MAX_NODES && inUse[x] && p < MAX_NODES && inUse[p] && isDir[p]
      requires nm != "" && '/' !in nm && Child(View(), p, nm) == None
      requires Look(View(), source) == Some(x) && Look(View(), at) == Some(p)
      modifies this`name, this`parent, this`children, this`next, this`kids
      ensures Valid() <==> !(source <= at)
      ensures !(source <= at) ==>
                InRange(View()) && forall t :: Look(View(), t) == Moved(old(View()), source, at + [nm], t)
    {
      hide Tree, Linked, Look, Child, Without, Detached, Moved;
      TreeAgrees(View());
      ghost var fs := View();
      assert Listed(fs, x);
      RenameKeepsTree(fs, x, p, nm, source, at);
      RenamedAgrees(fs, x, p, nm);
      Unlink(x);
      MoveLinks(fs, children, next, x, p);
      name := name[x := nm];
      parent := parent[x := p];
      next := next[x := children[p]];
      children := children[p := x];
      kids := kids[p := [x] + kids[p]];
      assert View() == Renamed(fs, x, p, nm);
      if !(source <= at) {
        forall t
          ensures Look(View(), t) == Moved(fs, source, at + [nm], t)
        {
          RenamedLook(fs, x, p, nm, source, at, t);
        }
      }
    }
  }

  function Last(t: seq<string>): string {
    if t == [] then "" else t[|t| - 1]
  }

  /** The directory of the second path is the first path or lies below it. */
  predicate Inside(a: seq<string>, b: seq<string>) {
    b != [] && a <= b[..|b| - 1]
  }

  /** Pushing the detached node on the list of its new parent. */
  lemma MoveLinks(fs: Fs, children: seq<int>, next: seq<int>, x: nat, p: nat)
    requires LinksAgree(fs) && 0 < x < MAX_NODES && fs.inUse[x] && 0 <= fs.parent[x] < MAX_NODES
    requires p < MAX_NODES && fs.inUse[p] && Links(fs.inUse, children, next, Detached(fs, x))
    ensures var kids := Detached(fs, x);
            Links(fs.inUse, children[p := x], next[x := children[p]], kids[p := [x] + kids[p]])
  {
    hide Linked, Look, Detached;
    var kids := Detached(fs, x);
    var children', next', kids' := children[p := x], next[x := children[p]], kids[p := [x] + kids[p]];
    forall d: nat | d < MAX_NODES && fs.inUse[d]
      ensures Linked(next', children'[d], kids'[d])
    {
      DetachedKids(fs, x, d, x);
      if d == p {
        LinkedPush(next, children[p], kids[p], x);
      } else {
        LinkedFrame(next, next', children[d], kids[d]);
      }
    }
  }

  lemma TreeAgrees(fs: Fs)
    requires Tree(fs)
    ensures LinksAgree(fs)
  {
  }

  /** A path that names nothing, in a directory that exists, has a proper last name that is free. */
  lemma NewName(fs: Fs, at: seq<string>, p: nat, nm: string)
    requires Tree(fs) && Look(fs, at) == Some(p)
    requires Look(fs, at + if nm == "" then [] else [nm]) == None
    ensures nm != "" && Child(fs, p, nm) == None
  {
    LookLast(fs, at, nm);
    assert at + [] == at;
  }

  /** Cutting a path at its last slash. */
  lemma SplitPath(path: string, last: nat)
    requires last < |path| && path[last] == '/' && '/' !in path[last + 1..]
    ensures var nm := path[last + 1..]; Tokens(path) == Tokens(path[..last]) + if nm == "" then [] else [nm]
  {
    hide Tokens;
    var nm := path[last + 1..];
    assert path == path[..last] + "/" + nm;
    TokensOfPath(path[..last], nm);
    OneToken(nm);
  }

  lemma OneToken(nm: string)
    requires '/' !in nm
    ensures Tokens(nm) == if nm == "" then [] else [nm]
  {
    if nm != "" {
      FirstSlashOfName(nm, "");
      assert nm + "" == nm && nm[..|nm|] == nm && nm[|nm|..] == "";
      assert nm[0] in nm;
    }
  }

  lemma LinksAttach(inUse: seq<bool>, children: seq<int>, next: seq<int>, kids: seq<seq<nat>>, y: nat, p: nat)
    requires Links(inUse, children, next, kids) && |inUse| == MAX_NODES && p < MAX_NODES && inUse[p]
    requires y < MAX_NODES && y != p && kids[y] == [] && forall d: nat :: d < MAX_NODES ==> y !in kids[d]
    ensures Links(inUse[y := true], children[y := NULL][p := y], next[y := children[p]], kids[p := [y] + kids[p]])
  {
    hide Linked;
    var inUse', children' := inUse[y := true], children[y := NULL][p := y];
    var next', kids' := next[y := children[p]], kids[p := [y] + kids[p]];
    forall d: nat | d < MAX_NODES && inUse'[d]
      ensures Linked(next', children'[d], kids'[d])
    {
      if d == p {
        LinkedPush(next, children[p], kids[p], y);
      } else if d == y {
        LinkedEmpty(next');
      } else {
        LinkedFrame(next, next', children[d], kids[d]);
      }
    }
  }

  lemma LinkedEmpty(next: seq<int>)
    ensures Linked(next, NULL, [])
  {
  }

  /** Making the link to child `i` of `p` point past it. */
  lemma LinksUnlink(fs: Fs, children: seq<int>, next: seq<int>, p: nat, i: nat)
    requires LinksAgree(fs) && Links(fs.inUse, children, next, fs.kids)
    requires p < MAX_NODES && fs.inUse[p] && i < |fs.kids[p]|
    ensures
      var s := fs.kids[p];
      forall j: nat :: j < |s| ==> s[j] < MAX_NODES
    ensures
      var s := fs.kids[p];
      var kids' := fs.kids[p := Without(s, s[i])];
      if i == 0 then Links(fs.inUse, children[p := next[s[0]]], next, kids')
      else Links(fs.inUse, children, next[s[i - 1] := next[s[i]]], kids')
  {
    hide Linked, Without, Look;
    var s := fs.kids[p];
    var x := s[i];
    assert NamesDiffer(fs, p);
    WithoutFacts(s, x, i);
    LinkedUnlink(next, children[p], s, i);
    var next' := if i == 0 then next else next[s[i - 1] := next[x]];
    var head' := if i == 0 then next[x] else children[p];
    LinkedFrame(UnlinkedAt(next, s, i), next', head', Without(s, x));
    forall d: nat | d < MAX_NODES && fs.inUse[d] && d != p
      ensures Linked(next', children[d], fs.kids[d])
    {
      KidsApart(fs, p, d, i);
      LinkedFrame(next, next', children[d], fs.kids[d]);
    }
  }

  /** A child is listed by one directory only. */
  lemma KidsApart(fs: Fs, p: nat, d: nat, i: nat)
    requires LinksAgree(fs) && p < MAX_NODES && d < MAX_NODES && d != p && i < |fs.kids[p]|
    ensures i > 0 ==> fs.kids[p][i - 1] !in fs.kids[d]
  {
    if i > 0 {
      var y := fs.kids[p][i - 1];
      assert y in fs.kids[p] && KidOk(fs, p, y);
      assert y in fs.kids[d] ==> KidOk(fs, d, y);
    }
  }

  lemma AfterSlash(path: string)
    requires Absolute(path)
    ensures Tokens(path) == [] + Tokens(path[1..])
  {
  }

  /** The part of a path from `p` to the next slash. */
  lemma NextPart(path: string, p: nat, end: nat)
    requires p < |path| && end == p + FirstSlash(path[p..])
    ensures p <= end <= |path| && (end == p ==> Tokens(path[p..]) == Tokens(path[p + 1..]))
    ensures end > p ==> Tokens(path[p..]) == [path[p..end]] + Tokens(path[if end < |path| then end + 1 else end..])
  {
    var s, e := path[p..], end - p;
    assert s[..e] == path[p..end] && s[e..] == path[end..] && s[1..] == path[p + 1..];
    if end < |path| {
      assert path[end..][1..] == path[end + 1..] && path[end] == '/';
    }
  }

  lemma FileHasNoChild(fs: Fs, d: nat, t: string)
    requires LinksAgree(fs) && d < MAX_NODES && !fs.isDir[d]
    ensures Child(fs, d, t) == None
  {
    NoKidsInFile(fs, d);
    NoChild(fs, d, t);
  }

  lemma NoKidsInFile(fs: Fs, d: nat)
    requires LinksAgree(fs) && d < MAX_NODES
    ensures fs.kids[d] == [] || fs.isDir[d]
  {
    if fs.kids[d] != [] {
      assert fs.kids[d][0] in fs.kids[d];
      assert KidOk(fs, d, fs.kids[d][0]);
    }
  }

  lemma LinkedStart(next: seq<int>, first: int, s: seq<nat>)
    requires Linked(next, first, s)
    ensures first == At(s, 0) && s[0..] == s
  {
  }

  lemma KidsInRange(fs: Fs, d: nat)
    requires Tree(fs) && d < MAX_NODES
    ensures InRange(fs) && forall i: nat :: i < |fs.kids[d]| ==> fs.kids[d][i] < MAX_NODES
  {
  }

  lemma FindStep(names: seq<string>, s: seq<nat>, i: nat, t: string)
    requires i < |s| && forall j: nat :: j < |s| ==> s[j] < |names|
    ensures Find(names, s[i..], t) == if names[s[i]] == t then Some(s[i]) else Find(names, s[i + 1..], t)
  {
    assert s[i..][1..] == s[i + 1..];
  }

  lemma {:induction false} EmptyLook(fs: Fs, path: seq<string>)
    requires Sized(fs) && (forall d: nat :: d < MAX_NODES ==> fs.kids[d] == []) && path != []
    ensures InRange(fs) && Look(fs, path) == None
    decreases |path|
  {
    var n := |path| - 1;
    if n > 0 {
      EmptyLook(fs, path[..n]);
    }
  }

  lemma EmptyTree(fs: Fs)
    requires Sized(fs) && (forall d: nat :: d < MAX_NODES ==> fs.kids[d] == [])
    requires fs.isDir[ROOT] && forall x: nat :: x < MAX_NODES ==> (fs.inUse[x] <==> x == ROOT)
    ensures Tree(fs) && forall path :: path != [] ==> Look(fs, path) == None
  {
    forall path | path != []
      ensures InRange(fs) && Look(fs, path) == None
    {
      EmptyLook(fs, path);
    }
    assert Look(fs, []) == Some(ROOT);
  }
}
