/** The operating-system calls the export step makes (`os.listdir`,
    `os.remove`, `os.rmdir`, `os.rename`, `shutil.copy2`, `os.makedirs`),
    with POSIX semantics, over a file tree held in one mutable object. */
module FileSystem {
  import opened Outcomes
  import opened FsTree

  /** The `OSError` subclasses the calls raise; `ResourceBusy` is what
      removing the root directory raises, and `SameFile` is
      `shutil.SameFileError`. */
  datatype OsError = FileNotFound | NotADirectory | IsADirectory | DirectoryNotEmpty | FileExists | ResourceBusy | SameFile

  /** A call that returns nothing either completes or raises `OSError`. */
  datatype Status = Done | Failed(error: OsError)

  /** The error a call that needs a directory at `p` raises when there is none. */
  function MissingDirError(n: Node, p: Path): OsError
  {
    if Get(n, p).Some? then NotADirectory else FileNotFound
  }

  /** A chain of fresh empty directories along `p`. */
  function Chain(p: Path): (r: Node)
    ensures IsDirAt(r, p) && EntriesAt(r, p) == map[]
    decreases |p|
  {
    if p == [] then Dir(map[]) else Dir(map[p[0] := Chain(p[1..])])
  }

  /** `os.makedirs(p)`: every missing directory along `p` is created;
      `FileExistsError` if `p` exists, `NotADirectoryError` if a file stands
      on the way. */
  function MakeDirs(n: Node, p: Path): (r: Outcome<Node, OsError>)
    requires n.Dir?
    ensures Get(n, p).Some? ==> r == Raised(FileExists)
    ensures r.Returned? ==> r.value.Dir? && IsDirAt(r.value, p) && EntriesAt(r.value, p) == map[]
    decreases |p|
  {
    if p == [] then Raised(FileExists)
    else if p[0] !in n.entries then Returned(Dir(n.entries[p[0] := Chain(p[1..])]))
    else
      var child := n.entries[p[0]];
      if |p| == 1 then Raised(FileExists)
      else if child.File? then
        assert Get(child, p[1..]).None?;
        Raised(NotADirectory)
      else match MakeDirs(child, p[1..])
        case Returned(c) => Returned(Dir(n.entries[p[0] := c]))
        case Raised(e) => Raised(e)
  }

  /** `os.makedirs(p)` touches nothing that already exists outside the
      ancestors of `p`. */
  lemma {:induction false} MakeDirsKeeps(n: Node, p: Path, q: Path)
    requires n.Dir? && MakeDirs(n, p).Returned? && Get(n, q).Some? && !IsPrefix(q, p)
    ensures Get(MakeDirs(n, p).value, q) == Get(n, q)
    decreases |p|
  {
    assert q != [];
    if p[0] in n.entries && q[0] == p[0] {
      MakeDirsKeeps(n.entries[p[0]], p[1..], q[1..]);
    }
  }

  /** `os.makedirs` of a missing entry of an existing directory creates
      just that entry, empty. */
  lemma {:induction false} MakeDirsChild(n: Node, p: Path)
    requires n.Dir? && p != [] && IsDirAt(n, p[..|p| - 1]) && Get(n, p).None?
    ensures MakeDirs(n, p).Returned?
    decreases |p|
  {
    if |p| > 1 {
      var q := p[..|p| - 1];
      assert q[0] == p[0] && q[1..] == p[1..][..|p| - 2];
      assert Get(n, q) == Get(n.entries[p[0]], q[1..]);
      MakeDirsChild(n.entries[p[0]], p[1..]);
    }
  }

  /** Where `shutil.copy2` writes a file named `name` when asked to copy it
      to `destName` in a directory with entries `d`: into `destName` itself,
      or, when that is a directory, to `name` inside it. */
  function CopyInto(d: map<string, Node>, destName: string, name: string, content: seq<int>): (r: Outcome<map<string, Node>, OsError>)
    ensures r.Raised? <==>
      destName in d && d[destName].Dir? && name in d[destName].entries && d[destName].entries[name].Dir?
    ensures r.Raised? ==> r.error == IsADirectory
    ensures r.Returned? ==> r.value.Keys == d.Keys + {destName}
    ensures r.Returned? ==> forall k :: k in d && k != destName ==> r.value[k] == d[k]
    ensures r.Returned? && destName in d && d[destName].Dir? ==>
      r.value[destName] == Dir(d[destName].entries[name := File(content)])
    ensures r.Returned? && (destName !in d || d[destName].File?) ==> r.value[destName] == File(content)
  {
    if destName in d && d[destName].Dir? then
      var sub := d[destName].entries;
      if name in sub && sub[name].Dir? then Raised(IsADirectory)
      else Returned(d[destName := Dir(sub[name := File(content)])])
    else Returned(d[destName := File(content)])
  }

  /** `os.rename` of entry `a` to `b` in a directory with entries `d`. */
  function RenameIn(d: map<string, Node>, a: string, b: string): (r: Outcome<map<string, Node>, OsError>)
    ensures a !in d ==> r == Raised(FileNotFound)
    ensures r.Returned? ==> a in d && b in r.value && r.value[b] == d[a]
    ensures r.Returned? ==> r.value.Keys == if a == b then d.Keys else d.Keys - {a} + {b}
    ensures r.Returned? ==> forall k :: k in d && k != a && k != b ==> r.value[k] == d[k]
    ensures a in d && d[a].File? && (b !in d || d[b].File?) ==> r.Returned?
    ensures a in d && a != b && d[a].File? && b in d && d[b].Dir? ==> r == Raised(IsADirectory)
  {
    if a !in d then Raised(FileNotFound)
    else if a == b then Returned(d)
    else if b in d && d[b].Dir? && d[a].File? then Raised(IsADirectory)
    else if b in d && d[b].File? && d[a].Dir? then Raised(NotADirectory)
    else if b in d && d[b].Dir? && d[b].entries != map[] then Raised(DirectoryNotEmpty)
    else Returned((d - {a})[b := d[a]])
  }

  /** The path `shutil.copy2` writes the file `name` to when asked for
      `destName` in `destDir`: that entry, or `name` inside it when it is a
      directory. */
  function CopyTarget(n: Node, name: string, destDir: Path, destName: string): (r: Path)
    ensures r == destDir + [destName] || r == destDir + [destName, name]
    ensures IsDirAt(n, destDir + [destName]) <==> r == destDir + [destName, name]
  {
    if IsDirAt(n, destDir + [destName]) then destDir + [destName, name] else destDir + [destName]
  }

  /** Two paths apart never meet in a copy: no target of a copy into
      `dest` is a file directly inside `src`. */
  lemma {:induction false} ApartTargets(src: Path, dest: Path, name: string, destName: string)
    requires Disjoint(src, dest)
    ensures dest + [destName] != src + [name] && dest + [destName, name] != src + [name]
  {
    if |src| == |dest| {
      assert (src + [name])[..|dest|] == src[..|dest|] != dest == (dest + [destName])[..|dest|];
    }
    if |src| == |dest| + 1 {
      assert (src + [name])[..|dest|] == src[..|dest|] != dest == (dest + [destName, name])[..|dest|];
    }
  }

  /** `shutil.copy2` of the file `name` in `srcDir` to `destName` in
      `destDir` can complete on the tree `n`. */
  ghost predicate CanCopy(n: Node, srcDir: Path, name: string, destDir: Path, destName: string)
  {
    && IsFileAt(n, srcDir + [name]) && IsDirAt(n, destDir)
    && CopyTarget(n, name, destDir, destName) != srcDir + [name]
    && CopyInto(EntriesAt(n, destDir), destName, name, Get(n, srcDir + [name]).value.content).Returned?
  }

  /** That copy completed and turned the tree `before` into `after`. */
  ghost predicate Copied(before: Node, after: Node, srcDir: Path, name: string, destDir: Path, destName: string)
  {
    && CanCopy(before, srcDir, name, destDir, destName)
    && after == Put(before, destDir,
         Dir(CopyInto(EntriesAt(before, destDir), destName, name, Get(before, srcDir + [name]).value.content).value))
  }

  class FileSystem {
    var root: Node

    ghost predicate Valid()
      reads this
    {
      root.Dir?
    }

    constructor (root: Node)
      requires root.Dir?
      ensures Valid() && this.root == root
    {
      this.root := root;
    }

    /** `os.listdir(dir)`, as the set of names it lists in some order. */
    method ListDir(dir: Path) returns (names: Outcome<set<string>, OsError>)
      ensures IsDirAt(root, dir) ==> names == Returned(EntriesAt(root, dir).Keys)
      ensures !IsDirAt(root, dir) ==> names == Raised(MissingDirError(root, dir))
    {
      if IsDirAt(root, dir) {
        names := Returned(EntriesAt(root, dir).Keys);
      } else {
        names := Raised(MissingDirError(root, dir));
      }
    }

    /** `os.remove(join(dir, name))`. */
    method Remove(dir: Path, name: string) returns (st: Status)
      requires Valid()
      modifies this
      ensures Valid()
      ensures IsFileAt(old(root), dir + [name]) ==>
        st == Done && IsDirAt(old(root), dir) && root == Put(old(root), dir, Dir(EntriesAt(old(root), dir) - {name}))
      ensures !IsFileAt(old(root), dir + [name]) ==> st.Failed? && root == old(root)
    {
      if !IsDirAt(root, dir) {
        GetBelowFile(root, dir, name);
        return Failed(MissingDirError(root, dir));
      }
      var d := EntriesAt(root, dir);
      ChildOfDir(root, dir, name);
      if name !in d {
        return Failed(FileNotFound);
      } else if d[name].Dir? {
        return Failed(IsADirectory);
      }
      root := Put(root, dir, Dir(d - {name}));
      st := Done;
    }

    /** `os.rmdir(join(dir, name))`: only an empty directory goes. */
    method Rmdir(dir: Path, name: string) returns (st: Status)
      requires Valid()
      modifies this
      ensures Valid()
      ensures IsDirAt(old(root), dir + [name]) && EntriesAt(old(root), dir + [name]) == map[] ==>
        st == Done && IsDirAt(old(root), dir) && root == Put(old(root), dir, Dir(EntriesAt(old(root), dir) - {name}))
      ensures !(IsDirAt(old(root), dir + [name]) && EntriesAt(old(root), dir + [name]) == map[]) ==>
        st.Failed? && root == old(root)
      ensures IsDirAt(old(root), dir + [name]) && EntriesAt(old(root), dir + [name]) != map[] ==>
        st == Failed(DirectoryNotEmpty)
    {
      if !IsDirAt(root, dir) {
        GetBelowFile(root, dir, name);
        return Failed(MissingDirError(root, dir));
      }
      var d := EntriesAt(root, dir);
      ChildOfDir(root, dir, name);
      if name !in d {
        return Failed(FileNotFound);
      } else if d[name].File? {
        return Failed(NotADirectory);
      } else if d[name].entries != map[] {
        return Failed(DirectoryNotEmpty);
      }
      root := Put(root, dir, Dir(d - {name}));
      st := Done;
    }

    /** `os.rename(join(dir, a), join(dir, b))`. */
    method Rename(dir: Path, a: string, b: string) returns (st: Status)
      requires Valid()
      modifies this
      ensures Valid()
      ensures !IsDirAt(old(root), dir) ==> st.Failed? && root == old(root)
      ensures IsDirAt(old(root), dir) ==>
        match RenameIn(EntriesAt(old(root), dir), a, b)
        case Returned(d) => st == Done && root == Put(old(root), dir, Dir(d))
        case Raised(e) => st == Failed(e) && root == old(root)
    {
      if !IsDirAt(root, dir) {
        return Failed(MissingDirError(root, dir));
      }
      match RenameIn(EntriesAt(root, dir), a, b)
      case Returned(d) =>
        root := Put(root, dir, Dir(d));
        st := Done;
      case Raised(e) =>
        st := Failed(e);
    }

    /** `shutil.copy2(join(srcDir, name), join(destDir, destName))`. A copy
        of a file onto itself raises `SameFileError` before anything is
        written. */
    method Copy2(srcDir: Path, name: string, destDir: Path, destName: string) returns (st: Status)
      requires Valid()
      modifies this
      ensures Valid()
      ensures st == Done <==> CanCopy(old(root), srcDir, name, destDir, destName)
      ensures st == Done ==> Copied(old(root), root, srcDir, name, destDir, destName)
      ensures st.Failed? ==> root == old(root)
      ensures IsFileAt(old(root), srcDir + [name]) && CopyTarget(old(root), name, destDir, destName) == srcDir + [name] ==>
        st == Failed(SameFile)
      ensures (st.Failed? && IsFileAt(old(root), srcDir + [name]) && IsDirAt(old(root), destDir)
               && CopyTarget(old(root), name, destDir, destName) != srcDir + [name]) ==>
        st.error == CopyInto(EntriesAt(old(root), destDir), destName, name, Get(old(root), srcDir + [name]).value.content).error
    {
      var source := Get(root, srcDir + [name]);
      if source.None? {
        return Failed(FileNotFound);
      } else if source.value.Dir? {
        return Failed(IsADirectory);
      }
      if CopyTarget(root, name, destDir, destName) == srcDir + [name] {
        return Failed(SameFile);
      }
      if !IsDirAt(root, destDir) {
        return Failed(MissingDirError(root, destDir));
      }
      match CopyInto(EntriesAt(root, destDir), destName, name, source.value.content)
      case Returned(d) =>
        root := Put(root, destDir, Dir(d));
        st := Done;
      case Raised(e) =>
        st := Failed(e);
    }

    /** `os.makedirs(p)`. */
    method Makedirs(p: Path) returns (st: Status)
      requires Valid()
      modifies this
      ensures Valid()
      ensures match MakeDirs(old(root), p)
        case Returned(r) => st == Done && root == r
        case Raised(e) => st == Failed(e) && root == old(root)
    {
      match MakeDirs(root, p)
      case Returned(r) =>
        root := r;
        st := Done;
      case Raised(e) =>
        st := Failed(e);
    }
  }
}
