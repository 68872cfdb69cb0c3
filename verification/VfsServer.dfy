/** The VFS server's tables: mounts, working directories, and directory listings over both. */
module VfsServer {
  import opened Lists
  import opened VfsPath
  import opened Wrappers

  const MAX_MOUNTS := 16
  const MAX_PROCESSES := 64
  const NAME_MAX := 64

  const OK := 0
  const ENOENT := -2
  const ENOMEM := -12
  const EINVAL := -22
  const ENAMETOOLONG := -36

  datatype Mount = Mount(path: string, ep: nat)

  // ------------------------------------------------------------------ looking up a mount

  /** The mount is the path or a directory above it. */
  predicate Above(mount: string, path: string) {
    mount <= path && (mount == "/" || |path| == |mount| || path[|mount|] == '/')
  }

  type MountTable = seq<Option<Mount>>

  predicate MountedAbove(ms: MountTable, i: nat, path: string) {
    i < |ms| && ms[i].Some? && Above(ms[i].value.path, path)
  }

  /** Slot `i` holds the longest mount above the path. */
  ghost predicate Best(ms: MountTable, i: nat, path: string) {
    MountedAbove(ms, i, path) &&
    forall j: nat :: MountedAbove(ms, j, path) ==> |ms[j].value.path| <= |ms[i].value.path|
  }

  /** The path below the mount, always starting with a slash. */
  function Below(mount: string, path: string): (rel: string)
    requires mount <= path
    ensures rel != "" && rel[0] == '/'
  {
    var rest := path[|mount|..];
    if rest == "" then "/" else if rest[0] == '/' then rest else "/" + rest
  }

  /** The path that a mount and a path below it stand for. */
  function Rebuilt(mount: string, rel: string): string {
    if mount == "/" then rel else if rel == "/" then mount else mount + rel
  }

  predicate MountPath(path: string) {
    Absolute(path) && |path| < PATH_MAX
  }

  /** Mounted paths are absolute, fit the buffer, and are all different. */
  ghost predicate MountsOk(ms: MountTable) {
    && |ms| == MAX_MOUNTS
    && (forall i :: 0 <= i < |ms| && ms[i].Some? ==> MountPath(ms[i].value.path))
    && (forall i, j :: 0 <= i < j < |ms| && ms[i].Some? && ms[j].Some? ==> ms[i].value.path != ms[j].value.path)
  }

  /** At most one slot can be best. */
  lemma BestIsUnique(ms: MountTable, i: nat, j: nat, path: string)
    requires MountsOk(ms) && Best(ms, i, path) && Best(ms, j, path)
    ensures i == j
  {
    var m, n := ms[i].value.path, ms[j].value.path;
    assert |m| == |n|;
    assert m == path[..|m|] && n == path[..|n|];
  }

  /** For a normal path the mount and the rest put together are the path again. */
  lemma RebuiltIsPath(mount: string, path: string)
    requires Normal(path) && Above(mount, path) && Absolute(mount)
    ensures Rebuilt(mount, Below(mount, path)) == path
  {
    var rest := path[|mount|..];
    assert path == mount + rest;
    if rest != "" {
      NoDoubleSlash(path);
      NoTrailingSlash(path);
    }
  }

  lemma NoTrailingSlash(path: string)
    requires Normal(path) && |path| > 1
    ensures path[|path| - 1] != '/'
  {
    var stack :| NormalStack(stack) && path == Render(stack);
    var n := |stack| - 1;
    var last := stack[n];
    assert Name(last);
    assert stack == stack[..n] + [last];
    JoinAppend(stack[..n], [last]);
    assert Join([last]) == "/" + last;
    assert path[|path| - 1] == last[|last| - 1];
    assert last[|last| - 1] in last;
  }

  lemma NoDoubleSlash(path: string)
    requires Normal(path) && |path| > 1
    ensures path[0] == '/' && path[1] != '/'
  {
    var stack :| NormalStack(stack) && path == Render(stack);
    assert Name(stack[0]);
    assert path == "/" + stack[0] + Join(stack[1..]);
    assert path[1] == stack[0][0] && stack[0][0] in stack[0];
  }

  // ------------------------------------------------------------------ directory listings

  /** The name under which mount `mp` shows up directly inside `base`. */
  function ChildName(mp: string, base: string): Option<string> {
    if !Absolute(mp) || mp == base then None
    else
      var rem := if base == "/" then mp[1..]
                 else if base < mp && mp[|base|] == '/' then mp[|base| + 1..] else "";
      if rem == "" || '/' in rem then None else Some(rem)
  }

  /** What fits a directory entry. */
  function Short(name: string): (r: string)
    ensures |name| < NAME_MAX ==> r == name
  {
    if |name| < NAME_MAX then name else name[..NAME_MAX - 1]
  }

  /** The child mounts among the first `n` slots, in slot order. */
  function Children(ms: MountTable, n: nat, base: string): (names: seq<string>)
    requires n <= |ms|
    ensures |names| <= n
  {
    if n == 0 then []
    else
      var before := Children(ms, n - 1, base);
      if ms[n - 1].None? then before
      else match ChildName(ms[n - 1].value.path, base)
        case None => before
        case Some(rem) => if rem in before then before else before + [Short(rem)]
  }

  /** A mount that is a child of `base` under exactly this name. */
  ghost predicate MountedAs(ms: MountTable, n: nat, base: string, name: string) {
    exists i: nat :: i < n <= |ms| && ms[i].Some? && ChildName(ms[i].value.path, base) == Some(name)
  }

  ghost predicate ShortNames(ms: MountTable, base: string) {
    forall i: nat :: i < |ms| && ms[i].Some? && ChildName(ms[i].value.path, base).Some?
                     ==> |ChildName(ms[i].value.path, base).value| < NAME_MAX
  }

  /** The listing shows a name iff a mount is a child of the directory under it, and shows it once. */
  lemma {:induction false} ChildrenAreMounts(ms: MountTable, n: nat, base: string, name: string)
    requires n <= |ms| && ShortNames(ms, base)
    ensures name in Children(ms, n, base) <==> MountedAs(ms, n, base, name)
    ensures Distinct(Children(ms, n, base))
  {
    hide ChildName, MountedAs;
    if n == 0 {
      NothingMounted(ms, base, name);
    } else {
      ChildrenAreMounts(ms, n - 1, base, name);
      MountedAsStep(ms, n, base, name);
    }
  }

  lemma {:induction false} ListedNamesAreShort(ms: MountTable, n: nat, base: string, name: string)
    requires n <= |ms| && name in Children(ms, n, base)
    ensures |name| < NAME_MAX
  {
    hide ChildName;
    if n > 0 && name in Children(ms, n - 1, base) {
      ListedNamesAreShort(ms, n - 1, base, name);
    }
  }

  /** The listing is right: a name is in it iff a mount is a child of the directory under that name. */
  ghost predicate ListingIsRight(ms: MountTable, base: string) {
    forall name: string :: name in Children(ms, |ms|, base) <==> MountedAs(ms, |ms|, base, name)
  }

  /** That is so iff every child name fits a directory entry; then each name is listed once. */
  lemma ListingIsRightIff(ms: MountTable, base: string)
    ensures ListingIsRight(ms, base) <==> ShortNames(ms, base)
    ensures ShortNames(ms, base) ==> Distinct(Children(ms, |ms|, base))
  {
    hide ChildName, Children;
    if ShortNames(ms, base) {
      forall name: string
        ensures name in Children(ms, |ms|, base) <==> MountedAs(ms, |ms|, base, name)
      {
        ChildrenAreMounts(ms, |ms|, base, name);
      }
      ChildrenAreMounts(ms, |ms|, base, "");
    } else if ListingIsRight(ms, base) {
      var i: nat :| i < |ms| && ms[i].Some? && ChildName(ms[i].value.path, base).Some?
                    && |ChildName(ms[i].value.path, base).value| >= NAME_MAX;
      var name := ChildName(ms[i].value.path, base).value;
      assert MountedAs(ms, |ms|, base, name);
      ListedNamesAreShort(ms, |ms|, base, name);
      assert false;
    }
  }

  /** Two mounts whose names agree in their first 63 characters, in an otherwise empty table. */
  ghost function TwoLongMounts(name: string): MountTable {
    [Some(Mount("/" + name + "b", 1)), Some(Mount("/" + name + "c", 2))] + seq(MAX_MOUNTS - 2, _ => None)
  }

  /** They are listed under one cut name, twice. */
  lemma LongNamesAreCut(name: string)
    requires |name| == 63 && '/' !in name
    ensures var ms := TwoLongMounts(name);
            MountsOk(ms) && Children(ms, |ms|, "/") == [name, name] && !ShortNames(ms, "/")
  {
    hide Children, ChildName, Short;
    TwoAreListed(name);
    EmptySlots(TwoLongMounts(name), 2, MAX_MOUNTS, "/");
    TwoAreMounted(name);
  }

  lemma TwoAreListed(name: string)
    requires |name| == 63 && '/' !in name
    ensures Children(TwoLongMounts(name), 2, "/") == [name, name] && !ShortNames(TwoLongMounts(name), "/")
  {
    hide ChildName, Short;
    var ms := TwoLongMounts(name);
    LongChild(name, 'b');
    LongChild(name, 'c');
    assert Children(ms, 1, "/") == [] + [name];
    assert |name + "c"| == 64 && name + "c" !in [name];
    assert Children(ms, 2, "/") == [name] + [name];
    assert ms[0].Some? && ChildName(ms[0].value.path, "/") == Some(name + "b");
  }

  lemma TwoAreMounted(name: string)
    requires |name| == 63
    ensures MountsOk(TwoLongMounts(name))
  {
    assert ("/" + name + "b")[64] == 'b' && ("/" + name + "c")[64] == 'c';
  }

  lemma {:induction false} EmptySlots(ms: MountTable, from: nat, n: nat, base: string)
    requires from <= n <= |ms| && forall i :: from <= i < n ==> ms[i] == None
    ensures Children(ms, n, base) == Children(ms, from, base)
    decreases n
  {
    if from < n {
      EmptySlots(ms, from, n - 1, base);
    }
  }

  lemma LongChild(name: string, c: char)
    requires |name| == 63 && '/' !in name && c != '/'
    ensures ChildName("/" + name + [c], "/") == Some(name + [c]) && Short(name + [c]) == name
  {
    assert ("/" + name + [c])[1..] == name + [c] && (name + [c])[..63] == name;
  }

  lemma NothingMounted(ms: MountTable, base: string, name: string)
    ensures !MountedAs(ms, 0, base, name)
  {
  }

  lemma MountedAsStep(ms: MountTable, n: nat, base: string, name: string)
    requires 0 < n <= |ms|
    ensures MountedAs(ms, n, base, name) <==>
            MountedAs(ms, n - 1, base, name)
            || (ms[n - 1].Some? && ChildName(ms[n - 1].value.path, base) == Some(name))
  {
    hide ChildName;
    if MountedAs(ms, n, base, name) {
      var i: nat :| i < n <= |ms| && ms[i].Some? && ChildName(ms[i].value.path, base) == Some(name);
      assert i < n - 1 || i == n - 1;
    }
    if MountedAs(ms, n - 1, base, name) {
      var i: nat :| i < n - 1 <= |ms| && ms[i].Some? && ChildName(ms[i].value.path, base) == Some(name);
      assert i < n;
    }
  }

  /** A mount is a child under this name iff the name is one component and, put under the directory, is
      the mounted path. */
  lemma ChildNameIsPath(mp: string, base: string, name: string)
    ensures ChildName(mp, base) == Some(name) <==>
            Absolute(mp) && name != "" && '/' !in name && mp == (if base == "/" then "/" else base + "/") + name
  {
    var under := if base == "/" then "/" else base + "/";
    if Absolute(mp) && name != "" && '/' !in name && mp == under + name {
      assert mp[|under|..] == name;
      if base != "/" {
        assert base < mp && mp[|base|] == '/';
      }
    }
  }

  /** So the listing shows a name iff something is mounted at the directory's path with that one
      component more. */
  lemma ListingShowsMounts(ms: MountTable, base: string, name: string)
    requires Absolute(base) && ShortNames(ms, base)
    ensures name in Children(ms, |ms|, base) <==>
            && name != "" && '/' !in name
            && exists i :: 0 <= i < |ms| && ms[i].Some?
                           && ms[i].value.path == (if base == "/" then "/" else base + "/") + name
  {
    hide ChildName, Children, ShortNames;
    ChildrenAreMounts(ms, |ms|, base, name);
    forall i | 0 <= i < |ms| && ms[i].Some? {
      ChildNameIsPath(ms[i].value.path, base, name);
    }
  }

  /** Entries of the backend that no child mount covers. */
  function Visible(entries: seq<string>, children: seq<string>): seq<string> {
    if entries == [] then []
    else
      var n := |entries| - 1;
      Visible(entries[..n], children) + if entries[n] in children then [] else [entries[n]]
  }

  /** They are the entries whose names are not those of child mounts, in the backend's order. */
  lemma {:induction false} VisibleAre(entries: seq<string>, children: seq<string>, more: seq<string>)
    ensures forall name :: name in Visible(entries, children) <==> name in entries && name !in children
    ensures Visible(entries + more, children) == Visible(entries, children) + Visible(more, children)
    decreases |entries| + |more|
  {
    if more != [] {
      var m := |more| - 1;
      VisibleAre(entries, children, more[..m]);
      assert (entries + more)[..|entries| + m] == entries + more[..m];
    } else {
      assert entries + more == entries;
      if entries != [] {
        var n := |entries| - 1;
        VisibleAre(entries[..n], children, []);
        assert entries == entries[..n] + [entries[n]];
      }
    }
  }

  lemma {:induction false} VisiblePrefix(entries: seq<string>, children: seq<string>, n: nat)
    requires n <= |entries|
    ensures Visible(entries[..n], children) <= Visible(entries, children)
    decreases |entries|
  {
    if n < |entries| {
      var m := |entries| - 1;
      VisiblePrefix(entries[..m], children, n);
      assert entries[..m][..n] == entries[..n];
    } else {
      assert entries[..n] == entries;
    }
  }

  // ------------------------------------------------------------------ working directories

  datatype Cwd = Cwd(pid: nat, cwd: string)

  type CwdTable = seq<Option<Cwd>>

  predicate CwdIs(cs: CwdTable, i: nat, pid: nat) {
    i < |cs| && cs[i].Some? && cs[i].value.pid == pid
  }

  ghost predicate CwdsOk(cs: CwdTable) {
    && |cs| == MAX_PROCESSES
    && (forall i :: 0 <= i < |cs| && cs[i].Some? ==> Absolute(cs[i].value.cwd) && |cs[i].value.cwd| < PATH_MAX)
    && (forall i: nat, j: nat, pid: nat :: CwdIs(cs, i, pid) && CwdIs(cs, j, pid) ==> i == j)
  }

  /** The working directory of a process; `/` unless it has changed it. */
  ghost function CwdOf(cs: CwdTable, pid: nat): string {
    if exists i: nat :: CwdIs(cs, i, pid) then
      var i: nat :| CwdIs(cs, i, pid); cs[i].value.cwd
    else "/"
  }

  // ------------------------------------------------------------------ the server

  class Server {
    var mounts: MountTable
    var cwds: CwdTable

    ghost predicate Valid()
      reads this
    {
      MountsOk(mounts) && CwdsOk(cwds)
    }

    constructor ()
      ensures Valid()
    {
      mounts := seq(MAX_MOUNTS, _ => None);
      cwds := seq(MAX_PROCESSES, _ => None);
    }

    method GetCwd(pid: nat) returns (cwd: string)
      requires Valid()
      ensures cwd == CwdOf(cwds, pid) && Absolute(cwd)
    {
      for i := 0 to |cwds|
        invariant forall j: nat :: j < i ==> !CwdIs(cwds, j, pid)
      {
        if cwds[i].Some? && cwds[i].value.pid == pid {
          assert CwdIs(cwds, i, pid);
          return cwds[i].value.cwd;
        }
      }
      return "/";
    }

    /** A path as the process means it, in normal form. */
    method Resolve(pid: nat, input: string) returns (out: string)
      requires Valid()
      ensures out == Resolved(CwdOf(cwds, pid), input) && Normal(out) && |out| < PATH_MAX
    {
      var cwd := GetCwd(pid);
      out := ResolvePath(cwd, input);
      ResolvedIsNormal(cwd, input);
    }

    /** Afterwards the process is there, and nobody else moved. */
    method SetCwd(pid: nat, path: string) returns (ret: int)
      requires Valid()
      modifies this`cwds
      ensures Valid()
      ensures ret == EINVAL <==> !Absolute(path)
      ensures ret == OK ==> CwdOf(cwds, pid) == Cut(path)
      ensures ret == OK ==> forall q: nat :: q != pid ==> CwdOf(cwds, q) == CwdOf(old(cwds), q)
      ensures ret != OK ==> cwds == old(cwds)
      ensures ret == ENOMEM ==> forall i: nat :: i < |cwds| ==> cwds[i].Some? && cwds[i].value.pid != pid
      ensures ret in {OK, EINVAL, ENOMEM}
    {
      if !Absolute(path) {
        return EINVAL;
      }
      for i := 0 to |cwds|
        invariant cwds == old(cwds) && forall j: nat :: j < i ==> !CwdIs(cwds, j, pid)
      {
        if cwds[i].Some? && cwds[i].value.pid == pid {
          CwdChanged(cwds, i, pid, Cut(path));
          cwds := cwds[i := Some(Cwd(pid, Cut(path)))];
          return OK;
        }
      }
      for i := 0 to |cwds|
        invariant cwds == old(cwds) && forall j: nat :: j < i ==> cwds[j].Some?
      {
        if cwds[i].None? {
          CwdChanged(cwds, i, pid, Cut(path));
          cwds := cwds[i := Some(Cwd(pid, Cut(path)))];
          return OK;
        }
      }
      assert forall i: nat :: i < |cwds| ==> cwds[i].Some? && !CwdIs(cwds, i, pid);
      return ENOMEM;
    }

    /** A new mount, or a new file system for a mounted path. */
    method DoMount(path: string, ep: nat) returns (ret: int)
      requires Valid()
      modifies this`mounts
      ensures Valid()
      ensures ret == EINVAL <==> !MountPath(path)
      ensures ret == OK ==> exists i: nat :: i < |mounts| && mounts == old(mounts)[i := Some(Mount(path, ep))]
                                             && (old(mounts)[i].None? || old(mounts)[i].value.path == path)
      ensures ret != OK ==> mounts == old(mounts)
      ensures ret == ENOMEM ==> forall i: nat :: i < |mounts| ==> mounts[i].Some? && mounts[i].value.path != path
      ensures ret in {OK, EINVAL, ENOMEM}
    {
      if !Absolute(path) || |path| >= PATH_MAX {
        return EINVAL;
      }
      for i := 0 to |mounts|
        invariant mounts == old(mounts) && forall j: nat :: j < i ==> mounts[j].None? || mounts[j].value.path != path
      {
        if mounts[i].Some? && mounts[i].value.path == path {
          mounts := mounts[i := Some(Mount(path, ep))];
          return OK;
        }
      }
      for i := 0 to |mounts|
        invariant mounts == old(mounts) && forall j: nat :: j < i ==> mounts[j].Some?
      {
        if mounts[i].None? {
          mounts := mounts[i := Some(Mount(path, ep))];
          return OK;
        }
      }
      return ENOMEM;
    }

    /** The longest mount above the path, and the path below it. */
    method Lookup(path: string, maxLen: nat) returns (ret: int, rel: string)
      requires Valid()
      ensures ret == EINVAL <==> !Absolute(path)
      ensures ret == ENOENT ==> forall i: nat :: !MountedAbove(mounts, i, path)
      ensures ret >= 0 || ret == ENAMETOOLONG ==>
                exists i: nat :: Best(mounts, i, path)
                  && (ret == ENAMETOOLONG <==> |Below(mounts[i].value.path, path)| >= maxLen)
                                 && (ret >= 0 ==> ret == mounts[i].value.ep && rel == Below(mounts[i].value.path, path))
      ensures ret >= 0 || ret in {EINVAL, ENOENT, ENAMETOOLONG}
    {
      if !Absolute(path) {
        return EINVAL, "";
      }
      var found, best, bestLen := false, 0, 0;
      for i := 0 to |mounts|
        invariant if found then MountedAbove(mounts, best, path) && bestLen == |mounts[best].value.path|
                  else bestLen == 0
        invariant forall j: nat :: j < i && MountedAbove(mounts, j, path) ==> |mounts[j].value.path| <= bestLen
      {
        if mounts[i].Some? {
          var m := mounts[i].value.path;
          if |m| > bestLen && Above(m, path) {
            found, best, bestLen := true, i, |m|;
          }
        }
      }
      assert forall j: nat :: MountedAbove(mounts, j, path) ==> 0 < |mounts[j].value.path| <= bestLen;
      if !found {
        return ENOENT, "";
      }
      rel := Below(mounts[best].value.path, path);
      if |rel| >= maxLen {
        return ENAMETOOLONG, "";
      }
      return mounts[best].value.ep, rel;
    }

    method CollectMountChildren(base: string) returns (names: seq<string>)
      requires Valid()
      ensures names == Children(mounts, |mounts|, base)
    {
      hide ChildName;
      names := [];
      for i := 0 to |mounts|
        invariant names == Children(mounts, i, base)
      {
        if mounts[i].Some? {
          var child := ChildName(mounts[i].value.path, base);
          if child.Some? && child.value !in names {
            names := names + [Short(child.value)];
          }
        }
      }
    }

    /** Entry `index` of the child mounts followed by the backend's entries that no child mount covers.
        `entries` is what the backend lists, `end` its answer after the last one. */
    method ReadDir(base: string, index: nat, entries: seq<string>, end: int) returns (ret: int, name: string)
      requires Valid() && end <= 0
      ensures
        var children := Children(mounts, |mounts|, base);
        var listing := children + Visible(entries, children);
        if index < |listing| then ret == OK && name == listing[index]
        else ret == if end < 0 then end else ENOENT
    {
      name := "";
      var children := CollectMountChildren(base);
      if index < |children| {
        return OK, children[index];
      }
      var target, visible := index - |children|, 0;
      for i := 0 to |entries|
        invariant visible == |Visible(entries[..i], children)| <= target
      {
        assert entries[..i + 1][..i] == entries[..i];
        if entries[i] !in children {
          if visible == target {
            VisiblePrefix(entries, children, i + 1);
            return OK, entries[i];
          }
          visible := visible + 1;
        }
      }
      assert entries[..|entries|] == entries;
      return if end < 0 then end else ENOENT, "";
    }
  }

  /** Writing one slot changes the working directory of its process only. */
  lemma CwdChanged(cs: CwdTable, i: nat, pid: nat, cwd: string)
    requires CwdsOk(cs) && i < |cs| && Absolute(cwd) && |cwd| < PATH_MAX
    requires CwdIs(cs, i, pid) || (cs[i].None? && forall j: nat :: !CwdIs(cs, j, pid))
    ensures var cs' := cs[i := Some(Cwd(pid, cwd))];
            CwdsOk(cs') && CwdOf(cs', pid) == cwd && forall q: nat :: q != pid ==> CwdOf(cs', q) == CwdOf(cs, q)
  {
    var cs' := cs[i := Some(Cwd(pid, cwd))];
    assert CwdIs(cs', i, pid);
    forall j: nat, q: nat
      ensures q != pid ==> (CwdIs(cs', j, q) <==> CwdIs(cs, j, q))
      ensures CwdIs(cs', j, pid) <==> j == i
    {
      assert j != i ==> (CwdIs(cs', j, pid) <==> CwdIs(cs, j, pid));
    }
  }
}
